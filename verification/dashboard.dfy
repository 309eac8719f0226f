/** The pure helpers of the single-page frontend
    (frontend/public/js/app.js): section navigation by arrow keys, the
    specialization label, the species leaderboard, the appointment order,
    the local search fallback and the available-vet filter. */
module Dashboard {
  import opened Basics
  import opened Text
  import opened Sorting
  import Search

  // ---------------------------------------------------------------------
  // Keyboard navigation
  // ---------------------------------------------------------------------

  const Sections: seq<string> := ["home", "pets", "vets", "calendar", "appointments", "search"]

  datatype Key = ArrowRight | ArrowLeft | OtherKey

  /** What `findIndex` can return: a section index, or -1 when no section is
      active. */
  predicate IsCurrentIndex(i: int) {
    -1 <= i < |Sections|
  }

  /** The keydown handler: the section to show, if any. `ArrowRight` moves
      on unless the last section is showing (from no active section it shows
      the first); `ArrowLeft` moves back unless the first one is. */
  function NavTarget(current: int, key: Key): (r: Option<int>)
    requires IsCurrentIndex(current)
    ensures r.Some? ==> 0 <= r.value < |Sections|
    ensures r.Some? ==> r.value == current + 1 || r.value == current - 1
    ensures key == ArrowRight ==> (r.Some? <==> current < |Sections| - 1)
    ensures key == ArrowLeft ==> (r.Some? <==> current > 0)
    ensures key == OtherKey ==> r.None?
  {
    match key
    case ArrowRight => if current < |Sections| - 1 then Some(current + 1) else None
    case ArrowLeft => if current > 0 then Some(current - 1) else None
    case OtherKey => None
  }

  /** The active section after a key: the target if there is one. */
  function Step(current: int, key: Key): (r: int)
    requires IsCurrentIndex(current)
    ensures IsCurrentIndex(r)
  {
    NavTarget(current, key).GetOr(current)
  }

  /** A run of key presses never leaves the sections, and once a section
      is showing one always is. */
  function Presses(current: int, keys: seq<Key>): (r: int)
    requires IsCurrentIndex(current)
    ensures IsCurrentIndex(r)
    ensures current >= 0 ==> r >= 0
    ensures |keys| > 0 && keys[0] == ArrowRight ==> r >= 0
    decreases |keys|
  {
    if |keys| == 0 then current else Presses(Step(current, keys[0]), keys[1..])
  }

  /** Right then left, or left then right, comes back. */
  lemma NavRoundTrip(current: int)
    requires 0 <= current < |Sections|
    ensures current < |Sections| - 1 ==> Step(Step(current, ArrowRight), ArrowLeft) == current
    ensures current > 0 ==> Step(Step(current, ArrowLeft), ArrowRight) == current
  {
  }

  /** Enough presses of `ArrowRight` reach the last section, whatever the
      start, and more of them stay there. */
  lemma {:induction false} RightReachesLast(current: int, n: nat)
    requires IsCurrentIndex(current)
    requires n >= |Sections| - 1 - current
    ensures Presses(current, seq(n, _ => ArrowRight)) == |Sections| - 1
    decreases n
  {
    var keys := seq(n, _ => ArrowRight);
    if n > 0 {
      assert keys[1..] == seq(n - 1, _ => ArrowRight);
      var next := Step(current, ArrowRight);
      if current < |Sections| - 1 {
        RightReachesLast(next, n - 1);
      } else {
        RightReachesLast(current, n - 1);
      }
    }
  }

  // ---------------------------------------------------------------------
  // Specialization label
  // ---------------------------------------------------------------------

  /** A JavaScript falsy string: `null`, `undefined` or `''`. */
  predicate Falsy(s: Option<string>) {
    s.None? || s.value == ""
  }

  /** `\b\w`: a word character not preceded by one. */
  predicate WordStart(t: string, i: int)
    requires 0 <= i < |t|
  {
    IsWordChar(t[i]) && (i == 0 || !IsWordChar(t[i - 1]))
  }

  function Underscores(s: string): (t: string)
    ensures |t| == |s|
    ensures forall i :: 0 <= i < |s| ==> t[i] == (if s[i] == '_' then ' ' else s[i])
  {
    if |s| == 0 then "" else [if s[0] == '_' then ' ' else s[0]] + Underscores(s[1..])
  }

  function CapitaliseFrom(t: string, i: nat): (r: string)
    requires i <= |t|
    ensures |r| == |t| - i
    ensures forall k :: i <= k < |t| ==> r[k - i] == (if WordStart(t, k) then UpperChar(t[k]) else t[k])
    decreases |t| - i
  {
    if i == |t| then ""
    else [if WordStart(t, i) then UpperChar(t[i]) else t[i]] + CapitaliseFrom(t, i + 1)
  }

  /** `formatSpecialization`: a falsy value reads "General Practice";
      otherwise underscores become spaces and the first character of each
      word is upper-cased, the rest left as they are. */
  function FormatSpecialization(spec: Option<string>): (r: string)
    ensures Falsy(spec) ==> r == "General Practice"
    ensures !Falsy(spec) ==> |r| == |spec.value|
    ensures !Falsy(spec) ==> '_' !in r
    ensures !Falsy(spec) ==> forall i :: 0 <= i < |r| ==>
              r[i] == (if WordStart(Underscores(spec.value), i) then UpperChar(Underscores(spec.value)[i])
                       else Underscores(spec.value)[i])
  {
    if Falsy(spec) then "General Practice"
    else
      var t := Underscores(spec.value);
      var r := CapitaliseFrom(t, 0);
      assert forall i :: 0 <= i < |r| ==> r[i] != '_' by {
        forall i | 0 <= i < |r|
          ensures r[i] != '_'
        {
          assert r[i - 0] == (if WordStart(t, i) then UpperChar(t[i]) else t[i]);
        }
      }
      r
  }

  /** Upper-casing keeps a character's word-character status. */
  lemma UpperKeepsWordChar(c: char)
    ensures IsWordChar(UpperChar(c)) == IsWordChar(c)
    ensures IsWordChar(c) ==> UpperChar(UpperChar(c)) == UpperChar(c)
  {
  }

  /** Formatting a formatted label changes nothing. */
  lemma FormatIdempotent(s: string)
    requires s != ""
    ensures FormatSpecialization(Some(FormatSpecialization(Some(s)))) == FormatSpecialization(Some(s))
  {
    var r := FormatSpecialization(Some(s));
    var t := Underscores(s);
    var t2 := Underscores(r);
    assert t2 == r;
    var r2 := FormatSpecialization(Some(r));
    forall i | 0 <= i < |r|
      ensures r2[i] == r[i]
    {
      UpperKeepsWordChar(t[i]);
      if i > 0 {
        UpperKeepsWordChar(t[i - 1]);
      }
      assert IsWordChar(r[i]) == IsWordChar(t[i]);
      assert i > 0 ==> IsWordChar(r[i - 1]) == IsWordChar(t[i - 1]);
    }
  }

  // ---------------------------------------------------------------------
  // Species leaderboard
  // ---------------------------------------------------------------------

  /** `pet.species || 'UNKNOWN'`. */
  function SpeciesKey(species: Option<string>): (k: string)
    ensures k != ""
    ensures !Falsy(species) ==> k == species.value
  {
    if Falsy(species) then "UNKNOWN" else species.value
  }

  type Tally = seq<(string, nat)>

  ghost predicate DistinctKeys(t: Tally) {
    forall i, j :: 0 <= i < j < |t| ==> t[i].0 != t[j].0
  }

  /** The sum of the counts. */
  function Total(t: Tally): nat {
    if |t| == 0 then 0 else t[0].1 + Total(t[1..])
  }

  lemma {:induction false} TotalAppend(t: Tally, e: (string, nat))
    ensures Total(t + [e]) == Total(t) + e.1
  {
    if |t| > 0 {
      assert (t + [e])[1..] == t[1..] + [e];
      TotalAppend(t[1..], e);
    }
  }

  lemma {:induction false} TotalBump(t: Tally, i: int)
    requires 0 <= i < |t|
    ensures Total(t[i := (t[i].0, t[i].1 + 1)]) == Total(t) + 1
  {
    if i > 0 {
      assert t[i := (t[i].0, t[i].1 + 1)][1..] == t[1..][i - 1 := (t[i].0, t[i].1 + 1)];
      TotalBump(t[1..], i - 1);
    }
  }

  function KeyIndex(t: Tally, k: string): (r: Option<nat>)
    ensures r.None? <==> forall i | 0 <= i < |t| :: t[i].0 != k
    ensures r.Some? ==> r.value < |t| && t[r.value].0 == k
  {
    if |t| == 0 then None
    else if t[0].0 == k then Some(0)
    else match KeyIndex(t[1..], k)
      case None => None
      case Some(j) => Some(j + 1)
  }

  /** `speciesCount[species] = (speciesCount[species] || 0) + 1`: a known
      key counts one more, a new key joins at the end. */
  function Bump(t: Tally, k: string): (r: Tally) {
    match KeyIndex(t, k)
    case Some(i) => t[i := (k, t[i].1 + 1)]
    case None => t + [(k, 1)]
  }

  /** The `forEach` over the pets: the counts in first-seen order. */
  function CountSpecies(keys: seq<string>): Tally
    decreases |keys|
  {
    if |keys| == 0 then [] else Bump(CountSpecies(keys[..|keys| - 1]), keys[|keys| - 1])
  }

  /** `t` is a faithful count of `keys`: each key once, with the number
      of times it occurs, every key present, the counts adding up to the
      number of keys. */
  ghost predicate CountsOf(t: Tally, keys: seq<string>) {
    && DistinctKeys(t)
    && (forall i :: 0 <= i < |t| ==> t[i].1 == multiset(keys)[t[i].0] && t[i].1 > 0)
    && (forall k :: k in keys ==> exists i :: 0 <= i < |t| && t[i].0 == k)
    && Total(t) == |keys|
  }

  lemma BumpKnown(t: Tally, keys: seq<string>, k: string, i: nat)
    requires CountsOf(t, keys)
    requires i < |t| && t[i].0 == k
    ensures CountsOf(t[i := (k, t[i].1 + 1)], keys + [k])
  {
    var t' := t[i := (k, t[i].1 + 1)];
    var keys' := keys + [k];
    assert multiset(keys') == multiset(keys) + multiset{k};
    TotalBump(t, i);
    forall x | x in keys'
      ensures exists j :: 0 <= j < |t'| && t'[j].0 == x
    {
      if x != k {
        assert x in keys;
        var j :| 0 <= j < |t| && t[j].0 == x;
        assert t'[j].0 == x;
      } else {
        assert t'[i].0 == x;
      }
    }
  }

  lemma BumpNew(t: Tally, keys: seq<string>, k: string)
    requires CountsOf(t, keys)
    requires forall i | 0 <= i < |t| :: t[i].0 != k
    ensures CountsOf(t + [(k, 1)], keys + [k])
  {
    var t' := t + [(k, 1)];
    var keys' := keys + [k];
    assert multiset(keys') == multiset(keys) + multiset{k};
    assert k !in keys;
    TotalAppend(t, (k, 1));
    forall x | x in keys'
      ensures exists j :: 0 <= j < |t'| && t'[j].0 == x
    {
      if x != k {
        assert x in keys;
        var j :| 0 <= j < |t| && t[j].0 == x;
        assert t'[j].0 == x;
      } else {
        assert t'[|t|].0 == x;
      }
    }
  }

  /** The tally of the pets is a faithful count. */
  lemma {:induction false} CountSpeciesCorrect(keys: seq<string>)
    ensures CountsOf(CountSpecies(keys), keys)
    decreases |keys|
  {
    if |keys| > 0 {
      var init := keys[..|keys| - 1];
      var k := keys[|keys| - 1];
      assert keys == init + [k];
      CountSpeciesCorrect(init);
      var t0 := CountSpecies(init);
      match KeyIndex(t0, k)
      case Some(i) => BumpKnown(t0, init, k, i);
      case None => BumpNew(t0, init, k);
    }
  }

  /** `b[1] - a[1]` as a "may precede": the larger count first. */
  predicate ByCount(a: (string, nat), b: (string, nat)) {
    a.1 >= b.1
  }

  lemma ByCountIsPreorder()
    ensures TotalPreorder(ByCount)
  {
  }

  const LeaderboardSize := 3

  /** `updateSpeciesLeaderboard`: the species counts sorted by count,
      largest first, cut to three. */
  function Leaderboard(species: seq<Option<string>>): (r: Tally)
    ensures |r| == Min(LeaderboardSize, |CountSpecies(Map(species, SpeciesKey))|)
  {
    var t := CountSpecies(Map(species, SpeciesKey));
    Sort(t, ByCount)[..Min(LeaderboardSize, |t|)]
  }

  /** The leaderboard is the head of the tally sorted by count. */
  lemma LeaderboardIsSortedPrefix(species: seq<Option<string>>)
    ensures var t := CountSpecies(Map(species, SpeciesKey));
            var sorted := Sort(t, ByCount);
            && SortedBy(sorted, ByCount) && multiset(sorted) == multiset(t)
            && Leaderboard(species) == sorted[..Min(LeaderboardSize, |t|)]
  {
    ByCountIsPreorder();
    SortCorrect(CountSpecies(Map(species, SpeciesKey)), ByCount);
  }

  /** The first `n` of a tally sorted by count are a top `n`. */
  lemma SortedHeadIsTop(t: Tally, n: nat)
    requires n <= |t|
    ensures var sorted := Sort(t, ByCount);
            var r := sorted[..n];
            && (forall i, j :: 0 <= i < j < |r| ==> r[i].1 >= r[j].1)
            && (forall e :: e in r ==> e in t)
            && (forall x, e :: x in t && x !in r && e in r ==> e.1 >= x.1)
  {
    ByCountIsPreorder();
    SortCorrect(t, ByCount);
    HeadIsTop(Sort(t, ByCount), t, n);
  }

  /** The same for any permutation of `t` ordered by count. */
  lemma HeadIsTop(sorted: Tally, t: Tally, n: nat)
    requires SortedBy(sorted, ByCount) && multiset(sorted) == multiset(t)
    requires n <= |sorted|
    ensures var r := sorted[..n];
            && (forall i, j :: 0 <= i < j < |r| ==> r[i].1 >= r[j].1)
            && (forall e :: e in r ==> e in t)
            && (forall x, e :: x in t && x !in r && e in r ==> e.1 >= x.1)
  {
    var r := sorted[..n];
    forall i, j | 0 <= i < j < |r|
      ensures r[i].1 >= r[j].1
    {
      assert ByCount(sorted[i], sorted[j]);
    }
    forall e | e in r
      ensures e in t
    {
      assert e in multiset(sorted);
    }
    forall x, e | x in t && x !in r && e in r
      ensures e.1 >= x.1
    {
      assert x in multiset(sorted);
      assert sorted == sorted[..n] + sorted[n..];
      PrefixDominates(sorted, ByCount, n, x);
    }
  }

  /** The leaderboard is a real top three: its entries are tallies, in
      non-increasing order of count, and no species left out has a larger
      count than one shown. */
  lemma LeaderboardIsTop(species: seq<Option<string>>)
    ensures var t := CountSpecies(Map(species, SpeciesKey));
            var r := Leaderboard(species);
            && (forall i, j :: 0 <= i < j < |r| ==> r[i].1 >= r[j].1)
            && (forall e :: e in r ==> e in t)
            && (forall x, e :: x in t && x !in r && e in r ==> e.1 >= x.1)
  {
    var t := CountSpecies(Map(species, SpeciesKey));
    SortedHeadIsTop(t, Min(LeaderboardSize, |t|));
  }

  /** Pets without a species count under "UNKNOWN", and the counts add up
      to the number of pets. */
  lemma LeaderboardCounts(species: seq<Option<string>>)
    ensures Total(CountSpecies(Map(species, SpeciesKey))) == |species|
    ensures forall i :: 0 <= i < |species| && Falsy(species[i]) ==>
              exists j :: 0 <= j < |CountSpecies(Map(species, SpeciesKey))| &&
                CountSpecies(Map(species, SpeciesKey))[j].0 == "UNKNOWN"
  {
    var keys := Map(species, SpeciesKey);
    CountSpeciesCorrect(keys);
    forall i | 0 <= i < |species| && Falsy(species[i])
      ensures "UNKNOWN" in keys
    {
      assert keys[i] == "UNKNOWN";
    }
  }

  // ---------------------------------------------------------------------
  // Appointment order
  // ---------------------------------------------------------------------

  /** Code-point lexicographic order on strings. */
  predicate LexLe(a: string, b: string)
    decreases |a|
  {
    |a| == 0 || (|b| > 0 && (a[0] < b[0] || (a[0] == b[0] && LexLe(a[1..], b[1..]))))
  }

  lemma {:induction false} LexLeTotal(a: string, b: string)
    ensures LexLe(a, b) || LexLe(b, a)
    decreases |a|
  {
    if |a| > 0 && |b| > 0 && a[0] == b[0] {
      LexLeTotal(a[1..], b[1..]);
    }
  }

  lemma {:induction false} LexLeReflexive(a: string)
    ensures LexLe(a, a)
    decreases |a|
  {
    if |a| > 0 {
      LexLeReflexive(a[1..]);
    }
  }

  lemma {:induction false} LexLeTransitive(a: string, b: string, c: string)
    requires LexLe(a, b) && LexLe(b, c)
    ensures LexLe(a, c)
    decreases |a|
  {
    if |a| > 0 && a[0] == b[0] && b[0] == c[0] {
      LexLeTransitive(a[1..], b[1..], c[1..]);
    }
  }

  lemma {:induction false} LexLeAntisymmetric(a: string, b: string)
    requires LexLe(a, b) && LexLe(b, a)
    ensures a == b
    decreases |a|
  {
    if |a| > 0 {
      LexLeAntisymmetric(a[1..], b[1..]);
      assert a == [a[0]] + a[1..] && b == [b[0]] + b[1..];
    }
  }

  /** The fields of an appointment the frontend reads. */
  datatype AppointmentView = AppointmentView(
    date: string,
    time: string,
    appointmentType: Option<string>,
    notes: Option<string>,
    petName: Option<string>)

  /** The comparator of `loadAppointments`, with `localeCompare` read as
      code-point order: by date, then by time. */
  predicate ByDateTime(a: AppointmentView, b: AppointmentView) {
    (LexLe(a.date, b.date) && a.date != b.date) || (a.date == b.date && LexLe(a.time, b.time))
  }

  lemma ByDateTimeIsPreorder()
    ensures TotalPreorder(ByDateTime)
  {
    forall a: AppointmentView, b: AppointmentView
      ensures ByDateTime(a, b) || ByDateTime(b, a)
    {
      LexLeTotal(a.date, b.date);
      LexLeTotal(a.time, b.time);
    }
    forall a: AppointmentView, b: AppointmentView, c: AppointmentView | ByDateTime(a, b) && ByDateTime(b, c)
      ensures ByDateTime(a, c)
    {
      if a.date == b.date && b.date == c.date {
        LexLeTransitive(a.time, b.time, c.time);
      } else {
        LexLeReflexive(a.date);
        LexLeReflexive(b.date);
        LexLeTransitive(a.date, b.date, c.date);
        if a.date == c.date {
          LexLeAntisymmetric(a.date, b.date);
        }
      }
    }
  }

  /** `data.sort(...)`: the same appointments, earliest date first and, on
      one date, earliest time first. */
  function SortAppointments(appts: seq<AppointmentView>): (r: seq<AppointmentView>)
    ensures multiset(r) == multiset(appts)
    ensures forall i, j :: 0 <= i < j < |r| ==>
              LexLe(r[i].date, r[j].date) && (r[i].date == r[j].date ==> LexLe(r[i].time, r[j].time))
  {
    ByDateTimeIsPreorder();
    SortCorrect(appts, ByDateTime);
    var r := Sort(appts, ByDateTime);
    forall i, j | 0 <= i < j < |r|
      ensures LexLe(r[i].date, r[j].date)
    {
      LexLeReflexive(r[i].date);
    }
    r
  }

  // ---------------------------------------------------------------------
  // Local search and vet availability
  // ---------------------------------------------------------------------

  datatype PetView = PetView(name: Option<string>, species: Option<string>, breed: Option<string>, ownerName: Option<string>)

  /** `field?.toLowerCase().includes(queryLower)`: a missing field never
      matches. */
  predicate FieldMatches(field: Option<string>, query: string) {
    field.Some? && Contains(Lower(field.value), Lower(query))
  }

  predicate LocalPetMatches(query: string, p: PetView) {
    FieldMatches(p.name, query) || FieldMatches(p.species, query)
      || FieldMatches(p.breed, query) || FieldMatches(p.ownerName, query)
  }

  /** The date is searched with the query as typed, not lower-cased. */
  predicate LocalAppointmentMatches(query: string, a: AppointmentView) {
    FieldMatches(a.appointmentType, query) || FieldMatches(a.notes, query)
      || FieldMatches(a.petName, query) || Contains(a.date, query)
  }

  /** `performLocalSearch`: the matching pets and appointments of the
      enabled categories, in their list order. */
  function LocalSearch(pets: seq<PetView>, appts: seq<AppointmentView>, query: string,
                       searchPets: bool, searchAppointments: bool): (r: (seq<PetView>, seq<AppointmentView>))
    ensures forall p :: p in r.0 <==> searchPets && p in pets && LocalPetMatches(query, p)
    ensures forall a :: a in r.1 <==> searchAppointments && a in appts && LocalAppointmentMatches(query, a)
    ensures SubsequenceOf(r.0, pets) && SubsequenceOf(r.1, appts)
    ensures forall p :: multiset(r.0)[p] == if searchPets && LocalPetMatches(query, p) then multiset(pets)[p] else 0
    ensures forall a :: multiset(r.1)[a] ==
              if searchAppointments && LocalAppointmentMatches(query, a) then multiset(appts)[a] else 0
  {
    (FilterWhen(pets, searchPets, p => LocalPetMatches(query, p)),
     FilterWhen(appts, searchAppointments, a => LocalAppointmentMatches(query, a)))
  }

  /** The pet as the search service indexes it. */
  function PetRecord(p: PetView): Search.Record {
    map["name" := AsValue(p.name), "species" := AsValue(p.species),
        "breed" := AsValue(p.breed), "ownerName" := AsValue(p.ownerName)]
  }

  function AsValue(s: Option<string>): Search.Value {
    if s.Some? then Search.Str(s.value) else Search.Null
  }

  lemma PetRecordText(p: PetView)
    ensures Search.PetText(PetRecord(p)) ==
            p.name.GetOr("") + " " + p.species.GetOr("") + " " + p.breed.GetOr("") + " " + p.ownerName.GetOr("")
  {
    var rec := PetRecord(p);
    assert Search.Field(rec, "name") == p.name.GetOr("");
    assert Search.Field(rec, "species") == p.species.GetOr("");
    assert Search.Field(rec, "breed") == p.breed.GetOr("");
    assert Search.Field(rec, "ownerName") == p.ownerName.GetOr("");
  }

  /** A match inside either half is a match of the whole. */
  lemma MatchInHalf(a: string, b: string, query: string)
    requires Contains(Lower(a), Lower(query)) || Contains(Lower(b), Lower(query))
    ensures Contains(Lower(a + b), Lower(query))
  {
    LowerAppend(a, b);
    var whole := Lower(a) + Lower(b);
    if Contains(Lower(a), Lower(query)) {
      assert whole[0..|a|] == Lower(a);
      assert OccursAt(whole, Lower(a), 0);
      Search.ContainsTransitive(whole, Lower(a), Lower(query));
    } else {
      assert whole[|a|..|a| + |b|] == Lower(b);
      assert OccursAt(whole, Lower(b), |a|);
      Search.ContainsTransitive(whole, Lower(b), Lower(query));
    }
  }

  /** A match in any of four fields is a match of the four joined by
      spaces. */
  lemma MatchInJoined(f1: string, f2: string, f3: string, f4: string, query: string)
    requires Contains(Lower(f1), Lower(query)) || Contains(Lower(f2), Lower(query))
          || Contains(Lower(f3), Lower(query)) || Contains(Lower(f4), Lower(query))
    ensures Contains(Lower(f1 + " " + f2 + " " + f3 + " " + f4), Lower(query))
  {
    if Contains(Lower(f1), Lower(query)) {
      MatchInHalf(f1, " ", query);
    }
    if Contains(Lower(f1 + " "), Lower(query)) || Contains(Lower(f2), Lower(query)) {
      MatchInHalf(f1 + " ", f2, query);
      MatchInHalf(f1 + " " + f2, " ", query);
    }
    if Contains(Lower(f1 + " " + f2 + " "), Lower(query)) || Contains(Lower(f3), Lower(query)) {
      MatchInHalf(f1 + " " + f2 + " ", f3, query);
      MatchInHalf(f1 + " " + f2 + " " + f3, " ", query);
    }
    MatchInHalf(f1 + " " + f2 + " " + f3 + " ", f4, query);
  }

  /** The fallback finds no pet the search service would miss: a field
      match is a match of the joined text. */
  lemma LocalPetMatchImpliesService(query: string, p: PetView)
    requires LocalPetMatches(query, p)
    ensures Search.PetMatches(query, PetRecord(p))
  {
    PetRecordText(p);
    MatchInJoined(p.name.GetOr(""), p.species.GetOr(""), p.breed.GetOr(""), p.ownerName.GetOr(""), query);
  }

  /** The fields of a vet the frontend reads. */
  datatype VetView = VetView(id: int, specialization: Option<string>, available: Option<bool>)

  predicate IsAvailable(v: VetView) {
    v.available != Some(false)
  }

  predicate IsMarkedUnavailable(v: VetView) {
    v.available == Some(false)
  }

  /** `vets.filter(v => v.available !== false)`: only an explicit `false`
      removes a vet; `null` and a missing flag count as available. The vets
      shown and the vets removed make up the whole list. */
  function AvailableVets(vets: seq<VetView>): (r: seq<VetView>)
    ensures forall v :: v in r <==> v in vets && v.available != Some(false)
    ensures SubsequenceOf(r, vets)
    ensures |r| + |Filter(vets, IsMarkedUnavailable)| == |vets|
  {
    FilterAll(vets, IsAvailable);
    FilterIsSubsequence(vets, IsAvailable);
    FilterLengthSum(vets, IsAvailable, IsMarkedUnavailable);
    Filter(vets, IsAvailable)
  }
}
