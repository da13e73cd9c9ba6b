/**
  The on-device store of the mobile app (mobile_app/utils/database.ts): the user
  profile, the pets, the diagnosis history and the favourite veterinarians.
  Each table is a sequence of rows inside `Store`; SQL statements become updates
  of those sequences. `new Date().toISOString()` becomes the clock moving on by
  `elapsed`, and a failing statement (the exception every function catches) is
  the `fault` argument. Before `InitDatabase` no table exists and every
  statement fails.
 */
module Database {
  import opened Wrappers
  import opened Tables

  // ---------------------------------------------------------------------------
  // Columns

  /** `user_profile` without `id` and `created_at`. */
  datatype ProfileData = ProfileData(firstName: string, lastName: string, email: string, phone: string, updatedAt: nat)

  datatype ProfileInput = ProfileInput(firstName: string, lastName: string, email: string, phone: string)

  /** `pets` without `id` and `created_at`. */
  datatype PetData = PetData(
    name: string, kind: string, breed: string, age: int, weight: real,
    gender: string, bloodType: string, photoUri: string, updatedAt: nat)

  /** The argument of `savePet` and `updatePet`; `None` is an absent field. */
  datatype PetInput = PetInput(
    name: string, kind: string, breed: Option<string>, age: Option<int>, weight: Option<real>,
    gender: Option<string>, bloodType: Option<string>, photoUri: Option<string>)

  /** `diagnosis_history` without `id` and `created_at`. */
  datatype DiagnosisData = DiagnosisData(
    petId: Option<int>, petType: string, symptoms: string, diagnosis: string,
    confidenceLevel: string, confidencePercentage: real, recommendations: string, riskLevel: string)

  datatype DiagnosisInput = DiagnosisInput(
    petId: Option<int>, petType: string, symptoms: string, diagnosis: string,
    confidenceLevel: string, confidencePercentage: real, recommendations: string, riskLevel: Option<string>)

  /** `favorite_vets` without `id` and `added_at`. */
  datatype VetData = VetData(placeId: string, name: string, address: string, phone: string, latitude: real, longitude: real)

  datatype VetInput = VetInput(placeId: string, name: string, address: Option<string>, phone: Option<string>,
                               latitude: real, longitude: real)

  // ---------------------------------------------------------------------------
  // The defaults applied on writing (`x || default`)

  /** `breed`, `gender`, `blood_type` and `photo_uri` default to `''`, `age`
      and `weight` to `0`; the stored row never holds a null. */
  function PetColumns(input: PetInput, now: nat): (d: PetData)
    ensures d.name == input.name && d.kind == input.kind && d.updatedAt == now
    ensures input.breed.None? ==> d.breed == ""
    ensures input.breed.Some? ==> d.breed == input.breed.value
    ensures input.age.None? ==> d.age == 0
    ensures input.age.Some? ==> d.age == input.age.value
    ensures input.weight.None? ==> d.weight == 0.0
    ensures input.weight.Some? ==> d.weight == input.weight.value
    ensures d.gender == input.gender.GetOr("") && d.bloodType == input.bloodType.GetOr("")
    ensures d.photoUri == input.photoUri.GetOr("")
  {
    PetData(input.name, input.kind, input.breed.GetOr(""), input.age.GetOr(0), input.weight.GetOr(0.0),
            input.gender.GetOr(""), input.bloodType.GetOr(""), input.photoUri.GetOr(""), now)
  }

  /** `pet_id || null` turns an absent id and the id `0` into null;
      `risk_level || 'Unknown'` turns an absent or empty level into `Unknown`. */
  function DiagnosisColumns(input: DiagnosisInput): (d: DiagnosisData)
    ensures d.petId.None? <==> input.petId.None? || input.petId == Some(0)
    ensures d.petId.Some? ==> d.petId == input.petId
    ensures d.riskLevel == "Unknown" <==> input.riskLevel.None? || input.riskLevel == Some("") || input.riskLevel == Some("Unknown")
    ensures d.riskLevel != "" && (input.riskLevel.Some? && input.riskLevel.value != "" ==> d.riskLevel == input.riskLevel.value)
    ensures d.symptoms == input.symptoms && d.diagnosis == input.diagnosis && d.petType == input.petType
    ensures d.confidenceLevel == input.confidenceLevel && d.confidencePercentage == input.confidencePercentage
    ensures d.recommendations == input.recommendations
  {
    var petId := if input.petId.None? || input.petId.value == 0 then None else input.petId;
    var riskLevel := if input.riskLevel.None? || input.riskLevel.value == "" then "Unknown" else input.riskLevel.value;
    DiagnosisData(petId, input.petType, input.symptoms, input.diagnosis, input.confidenceLevel,
                  input.confidencePercentage, input.recommendations, riskLevel)
  }

  /** `address || ''` and `phone || ''`. */
  function VetColumns(input: VetInput): (d: VetData)
    ensures d.placeId == input.placeId && d.name == input.name
    ensures d.address == input.address.GetOr("") && d.phone == input.phone.GetOr("")
    ensures d.latitude == input.latitude && d.longitude == input.longitude
  {
    VetData(input.placeId, input.name, input.address.GetOr(""), input.phone.GetOr(""), input.latitude, input.longitude)
  }

  // ---------------------------------------------------------------------------
  // Table updates

  /** `UPDATE pets SET ... WHERE id = ?`: the row with that id gets the new
      columns and keeps its id and `created_at`. */
  function UpdatePetRows(pets: seq<Row<PetData>>, id: int, data: PetData): (r: seq<Row<PetData>>)
    ensures |r| == |pets|
    ensures forall i :: 0 <= i < |pets| ==> r[i].id == pets[i].id && r[i].stamp == pets[i].stamp
    ensures forall i :: 0 <= i < |pets| ==> r[i].data == if pets[i].id == id then data else pets[i].data
  {
    seq(|pets|, i requires 0 <= i < |pets| => if pets[i].id == id then Row(pets[i].id, pets[i].stamp, data) else pets[i])
  }

  /** No two favourites share a `place_id` (the column is `UNIQUE`). */
  predicate UniquePlaces(vets: seq<Row<VetData>>) {
    forall i, j :: 0 <= i < j < |vets| ==> vets[i].data.placeId != vets[j].data.placeId
  }

  predicate HasPlace(vets: seq<Row<VetData>>, placeId: string) {
    exists i :: 0 <= i < |vets| && vets[i].data.placeId == placeId
  }

  /** `DELETE FROM favorite_vets WHERE place_id = ?`. */
  function WithoutPlace(vets: seq<Row<VetData>>, placeId: string): seq<Row<VetData>> {
    Filter(vets, (x: Row<VetData>) => x.data.placeId != placeId)
  }

  /** `INSERT OR REPLACE`: a row with the same `place_id` is deleted and the new
      one appended with a fresh id and the current time. */
  function UpsertVet(vets: seq<Row<VetData>>, nextId: nat, now: nat, data: VetData): seq<Row<VetData>> {
    WithoutPlace(vets, data.placeId) + [Row(nextId, now, data)]
  }

  /** Removing a place keeps the remaining places unique. */
  lemma RemovingKeepsPlacesUnique(vets: seq<Row<VetData>>, placeId: string, nextId: nat, clock: nat)
    requires Chronological(vets, nextId, clock) && UniquePlaces(vets)
    ensures Chronological(WithoutPlace(vets, placeId), nextId, clock)
    ensures UniquePlaces(WithoutPlace(vets, placeId))
  {
    var r := WithoutPlace(vets, placeId);
    FilterKeepsChronological(vets, (x: Row<VetData>) => x.data.placeId != placeId, nextId, clock);
    forall i, j | 0 <= i < j < |r| ensures r[i].data.placeId != r[j].data.placeId {
      assert r[i] in vets && r[j] in vets;
      var a :| 0 <= a < |vets| && vets[a] == r[i];
      var b :| 0 <= b < |vets| && vets[b] == r[j];
      assert a != b;
    }
  }

  /** Removing a place drops exactly the rows of that place. */
  lemma RemovingDropsOnlyThatPlace(vets: seq<Row<VetData>>, placeId: string)
    ensures !HasPlace(WithoutPlace(vets, placeId), placeId)
    ensures forall p :: p != placeId ==> (HasPlace(WithoutPlace(vets, placeId), p) <==> HasPlace(vets, p))
    ensures forall x :: x in WithoutPlace(vets, placeId) <==> x in vets && x.data.placeId != placeId
  {
    var r := WithoutPlace(vets, placeId);
    forall p | p != placeId ensures HasPlace(r, p) <==> HasPlace(vets, p) {
      if HasPlace(vets, p) {
        var i :| 0 <= i < |vets| && vets[i].data.placeId == p;
        assert vets[i] in r;
      }
      if HasPlace(r, p) {
        var i :| 0 <= i < |r| && r[i].data.placeId == p;
        assert r[i] in vets;
      }
    }
    forall i | 0 <= i < |r| ensures r[i].data.placeId != placeId {
      assert r[i] in vets;
    }
  }

  /** Removing a place keeps the others in order and leaves that place absent. */
  lemma RemovingAPlace(vets: seq<Row<VetData>>, placeId: string, nextId: nat, clock: nat)
    requires Chronological(vets, nextId, clock) && UniquePlaces(vets)
    ensures Chronological(WithoutPlace(vets, placeId), nextId, clock)
    ensures UniquePlaces(WithoutPlace(vets, placeId))
    ensures !HasPlace(WithoutPlace(vets, placeId), placeId)
    ensures forall p :: p != placeId ==> (HasPlace(WithoutPlace(vets, placeId), p) <==> HasPlace(vets, p))
    ensures forall x :: x in WithoutPlace(vets, placeId) <==> x in vets && x.data.placeId != placeId
  {
    RemovingKeepsPlacesUnique(vets, placeId, nextId, clock);
    RemovingDropsOnlyThatPlace(vets, placeId);
  }

  /** Adding a favourite keeps one row per place: afterwards the place is
      present with the latest details, and every other place is as before. */
  lemma UpsertKeepsOneRowPerPlace(vets: seq<Row<VetData>>, nextId: nat, clock: nat, now: nat, data: VetData)
    requires Chronological(vets, nextId, clock) && UniquePlaces(vets) && clock <= now
    ensures var r := UpsertVet(vets, nextId, now, data);
      && Chronological(r, nextId + 1, now)
      && UniquePlaces(r)
      && r[|r| - 1] == Row(nextId, now, data)
      && HasPlace(r, data.placeId)
      && (forall p :: p != data.placeId ==> (HasPlace(r, p) <==> HasPlace(vets, p)))
      && (forall x :: x in r && x.data.placeId != data.placeId <==> x in vets && x.data.placeId != data.placeId)
  {
    var kept := WithoutPlace(vets, data.placeId);
    RemovingAPlace(vets, data.placeId, nextId, clock);
    AppendKeepsChronological(kept, nextId, clock, now, data);
    var r := kept + [Row(nextId, now, data)];
    forall i, j | 0 <= i < j < |r| ensures r[i].data.placeId != r[j].data.placeId {
      if j == |kept| {
        assert r[i] == kept[i];
      } else {
        assert r[i] == kept[i] && r[j] == kept[j];
      }
    }
    forall p | p != data.placeId ensures HasPlace(r, p) <==> HasPlace(kept, p) {
      if HasPlace(r, p) {
        var i :| 0 <= i < |r| && r[i].data.placeId == p;
        assert i < |kept| && kept[i] == r[i];
      }
      if HasPlace(kept, p) {
        var i :| 0 <= i < |kept| && kept[i].data.placeId == p;
        assert r[i] == kept[i];
      }
    }
    assert r[|r| - 1].data.placeId == data.placeId;
  }

  // ---------------------------------------------------------------------------
  // The invariant of each table

  /** At most one profile, in order, with `updated_at` between `created_at` and now. */
  predicate ProfilesOk(profiles: seq<Row<ProfileData>>, nextId: nat, clock: nat) {
    && |profiles| <= 1
    && Chronological(profiles, nextId, clock)
    && (forall i :: 0 <= i < |profiles| ==> profiles[i].stamp <= profiles[i].data.updatedAt <= clock)
  }

  /** Pets in order, with `updated_at` between `created_at` and now. */
  predicate PetsOk(pets: seq<Row<PetData>>, nextId: nat, clock: nat) {
    && Chronological(pets, nextId, clock)
    && (forall i :: 0 <= i < |pets| ==> pets[i].stamp <= pets[i].data.updatedAt <= clock)
  }

  /** Favourites in order, one per `place_id`. */
  predicate FavoritesOk(favorites: seq<Row<VetData>>, nextId: nat, clock: nat) {
    Chronological(favorites, nextId, clock) && UniquePlaces(favorites)
  }

  /** Reading the clock again keeps every table valid. */
  lemma LaterClock(profiles: seq<Row<ProfileData>>, pets: seq<Row<PetData>>,
                   diagnoses: seq<Row<DiagnosisData>>, favorites: seq<Row<VetData>>,
                   nextProfileId: nat, nextPetId: nat, nextDiagnosisId: nat, nextFavoriteId: nat,
                   clock: nat, later: nat)
    requires clock <= later
    requires ProfilesOk(profiles, nextProfileId, clock) && PetsOk(pets, nextPetId, clock)
    requires Chronological(diagnoses, nextDiagnosisId, clock) && FavoritesOk(favorites, nextFavoriteId, clock)
    ensures ProfilesOk(profiles, nextProfileId, later) && PetsOk(pets, nextPetId, later)
    ensures Chronological(diagnoses, nextDiagnosisId, later) && FavoritesOk(favorites, nextFavoriteId, later)
  {
    ChronologicalLater(profiles, nextProfileId, clock, later);
    ChronologicalLater(pets, nextPetId, clock, later);
    ChronologicalLater(diagnoses, nextDiagnosisId, clock, later);
    ChronologicalLater(favorites, nextFavoriteId, clock, later);
  }

  /** Adding a favourite now keeps the favourites valid. */
  lemma FavoritesUpsert(vets: seq<Row<VetData>>, nextId: nat, clock: nat, data: VetData)
    requires FavoritesOk(vets, nextId, clock)
    ensures FavoritesOk(UpsertVet(vets, nextId, clock, data), nextId + 1, clock)
  {
    UpsertKeepsOneRowPerPlace(vets, nextId, clock, clock, data);
  }

  /** Removing a favourite keeps the rest valid. */
  lemma FavoritesRemove(vets: seq<Row<VetData>>, nextId: nat, clock: nat, placeId: string)
    requires FavoritesOk(vets, nextId, clock)
    ensures FavoritesOk(WithoutPlace(vets, placeId), nextId, clock)
  {
    RemovingAPlace(vets, placeId, nextId, clock);
  }

  /** A pet saved now keeps the pets valid. */
  lemma PetsAppend(pets: seq<Row<PetData>>, nextId: nat, clock: nat, data: PetData)
    requires PetsOk(pets, nextId, clock) && data.updatedAt == clock
    ensures PetsOk(pets + [Row(nextId, clock, data)], nextId + 1, clock)
  {
    AppendKeepsChronological(pets, nextId, clock, clock, data);
  }

  /** An update made now keeps the pets valid. */
  lemma PetsUpdate(pets: seq<Row<PetData>>, nextId: nat, clock: nat, id: int, data: PetData)
    requires PetsOk(pets, nextId, clock) && data.updatedAt == clock
    ensures PetsOk(UpdatePetRows(pets, id, data), nextId, clock)
  {
  }

  /** Deleting pets keeps the rest valid. */
  lemma PetsDelete(pets: seq<Row<PetData>>, nextId: nat, clock: nat, id: int)
    requires PetsOk(pets, nextId, clock)
    ensures PetsOk(WithoutId(pets, id), nextId, clock)
  {
    var r := WithoutId(pets, id);
    DeleteRemovesExactlyThatId(pets, id, nextId, clock);
    forall i | 0 <= i < |r| ensures r[i].stamp <= r[i].data.updatedAt <= clock {
      assert r[i] in pets;
    }
  }

  // ---------------------------------------------------------------------------
  // The store

  class Store {
    /** Whether `initDatabase` has created the tables. */
    var ready: bool
    var profiles: seq<Row<ProfileData>>
    var pets: seq<Row<PetData>>
    var diagnoses: seq<Row<DiagnosisData>>
    var favorites: seq<Row<VetData>>
    /** The next id `AUTOINCREMENT` hands out per table; deleting rows never lowers it. */
    var nextProfileId: nat
    var nextPetId: nat
    var nextDiagnosisId: nat
    var nextFavoriteId: nat
    /** The latest clock reading. */
    var clock: nat

    /** The profile is a singleton, `place_id` is unique, every table is in
        insertion order and `updated_at` lies between `created_at` and now. */
    predicate Valid()
      reads this
    {
      && ProfilesOk(profiles, nextProfileId, clock)
      && PetsOk(pets, nextPetId, clock)
      && Chronological(diagnoses, nextDiagnosisId, clock)
      && FavoritesOk(favorites, nextFavoriteId, clock)
    }

    /** Opening the database file: no table exists yet. */
    constructor (startTime: nat)
      ensures Valid() && !ready && clock == startTime
      ensures profiles == [] && pets == [] && diagnoses == [] && favorites == []
    {
      ready := false;
      profiles, pets, diagnoses, favorites := [], [], [], [];
      nextProfileId, nextPetId, nextDiagnosisId, nextFavoriteId := 1, 1, 1, 1;
      clock := startTime;
    }

    /** `initDatabase`: `CREATE TABLE IF NOT EXISTS` four times; existing rows stay. */
    method InitDatabase()
      requires Valid()
      modifies this`ready
      ensures Valid() && ready
    {
      ready := true;
    }

    // -- user profile ---------------------------------------------------------

    /** `saveUserProfile`: update the one profile row if there is one, else insert it. */
    method SaveUserProfile(input: ProfileInput, elapsed: nat, fault: bool) returns (ok: bool)
      requires Valid()
      modifies this`profiles, this`nextProfileId, this`clock
      ensures Valid()
      ensures clock == old(clock) + elapsed
      ensures ok <==> ready && !fault
      ensures !ok ==> profiles == old(profiles) && nextProfileId == old(nextProfileId)
      ensures ok && old(profiles) == [] ==>
        && profiles == [Row(old(nextProfileId), clock, ProfileData(input.firstName, input.lastName, input.email, input.phone, clock))]
        && nextProfileId == old(nextProfileId) + 1
      ensures ok && old(profiles) != [] ==>
        && profiles == [Row(old(profiles)[0].id, old(profiles)[0].stamp,
                            ProfileData(input.firstName, input.lastName, input.email, input.phone, clock))]
        && nextProfileId == old(nextProfileId)
    {
      var now := clock + elapsed;
      LaterClock(profiles, pets, diagnoses, favorites, nextProfileId, nextPetId, nextDiagnosisId, nextFavoriteId,
                 clock, now);
      if !ready || fault {
        clock := now;
        return false;
      }
      var data := ProfileData(input.firstName, input.lastName, input.email, input.phone, now);
      if |profiles| > 0 {
        profiles, clock := [Row(profiles[0].id, profiles[0].stamp, data)], now;
      } else {
        profiles, nextProfileId, clock := [Row(nextProfileId, now, data)], nextProfileId + 1, now;
      }
      ok := true;
    }

    /** `getUserProfile`: the first profile row, or null when there is none or on error. */
    method GetUserProfile(fault: bool) returns (profile: Option<Row<ProfileData>>)
      requires Valid()
      ensures profile.Some? <==> ready && !fault && profiles != []
      ensures profile.Some? ==> profiles == [profile.value]
    {
      if !ready || fault || profiles == [] {
        return None;
      }
      return Some(profiles[0]);
    }

    // -- pets -----------------------------------------------------------------

    /** `savePet`: one new row, created and updated now, with the defaults applied. */
    method SavePet(input: PetInput, elapsed: nat, fault: bool) returns (ok: bool)
      requires Valid()
      modifies this`pets, this`nextPetId, this`clock
      ensures Valid()
      ensures clock == old(clock) + elapsed
      ensures ok <==> ready && !fault
      ensures ok ==> pets == old(pets) + [Row(old(nextPetId), clock, PetColumns(input, clock))]
                     && nextPetId == old(nextPetId) + 1
      ensures !ok ==> pets == old(pets) && nextPetId == old(nextPetId)
    {
      var now := clock + elapsed;
      LaterClock(profiles, pets, diagnoses, favorites, nextProfileId, nextPetId, nextDiagnosisId, nextFavoriteId,
                 clock, now);
      if !ready || fault {
        clock := now;
        return false;
      }
      var data := PetColumns(input, now);
      PetsAppend(pets, nextPetId, now, data);
      pets, nextPetId, clock := pets + [Row(nextPetId, now, data)], nextPetId + 1, now;
      ok := true;
    }

    /** `updatePet`: rewrite the row with that id; true even when no row has it. */
    method UpdatePet(id: int, input: PetInput, elapsed: nat, fault: bool) returns (ok: bool)
      requires Valid()
      modifies this`pets, this`clock
      ensures Valid()
      ensures clock == old(clock) + elapsed
      ensures ok <==> ready && !fault
      ensures ok ==> pets == UpdatePetRows(old(pets), id, PetColumns(input, clock))
      ensures !ok ==> pets == old(pets)
    {
      var now := clock + elapsed;
      LaterClock(profiles, pets, diagnoses, favorites, nextProfileId, nextPetId, nextDiagnosisId, nextFavoriteId,
                 clock, now);
      if !ready || fault {
        clock := now;
        return false;
      }
      var data := PetColumns(input, now);
      PetsUpdate(pets, nextPetId, now, id, data);
      pets, clock := UpdatePetRows(pets, id, data), now;
      ok := true;
    }

    /** `getAllPets`: every pet, newest `created_at` first; `[]` on error. */
    method GetAllPets(fault: bool) returns (rows: seq<Row<PetData>>)
      requires Valid()
      ensures !ready || fault ==> rows == []
      ensures ready && !fault ==> NewestFirst(rows) && multiset(rows) == multiset(pets)
    {
      if !ready || fault {
        return [];
      }
      ReverseIsNewestFirst(pets, nextPetId, clock);
      rows := Reverse(pets);
    }

    /** `deletePet`: drop the rows with that id; true whether or not one matched. */
    method DeletePet(id: int, fault: bool) returns (ok: bool)
      requires Valid()
      modifies this`pets
      ensures Valid()
      ensures ok <==> ready && !fault
      ensures ok ==> pets == WithoutId(old(pets), id)
      ensures !ok ==> pets == old(pets)
    {
      if !ready || fault {
        return false;
      }
      PetsDelete(pets, nextPetId, clock, id);
      pets := WithoutId(pets, id);
      ok := true;
    }

    // -- diagnosis history ----------------------------------------------------

    /** `saveDiagnosis`: one new row, created now, with `pet_id` and `risk_level` defaulted. */
    method SaveDiagnosis(input: DiagnosisInput, elapsed: nat, fault: bool) returns (ok: bool)
      requires Valid()
      modifies this`diagnoses, this`nextDiagnosisId, this`clock
      ensures Valid()
      ensures clock == old(clock) + elapsed
      ensures ok <==> ready && !fault
      ensures ok ==> diagnoses == old(diagnoses) + [Row(old(nextDiagnosisId), clock, DiagnosisColumns(input))]
                     && nextDiagnosisId == old(nextDiagnosisId) + 1
      ensures !ok ==> diagnoses == old(diagnoses) && nextDiagnosisId == old(nextDiagnosisId)
    {
      var now := clock + elapsed;
      LaterClock(profiles, pets, diagnoses, favorites, nextProfileId, nextPetId, nextDiagnosisId, nextFavoriteId,
                 clock, now);
      if !ready || fault {
        clock := now;
        return false;
      }
      var data := DiagnosisColumns(input);
      AppendKeepsChronological(diagnoses, nextDiagnosisId, now, now, data);
      diagnoses, nextDiagnosisId, clock := diagnoses + [Row(nextDiagnosisId, now, data)], nextDiagnosisId + 1, now;
      ok := true;
    }

    /** `getDiagnosisHistory(limit = 20)`: the newest `limit` diagnoses, newest
        first (a negative limit means all of them); `[]` on error. */
    method GetDiagnosisHistory(fault: bool, limit: int := 20) returns (rows: seq<Row<DiagnosisData>>)
      requires Valid()
      ensures !ready || fault ==> rows == []
      ensures ready && !fault ==>
        && NewestFirst(rows)
        && |rows| == (if 0 <= limit < |diagnoses| then limit else |diagnoses|)
        && multiset(rows) <= multiset(diagnoses)
        && (forall x, y :: x in diagnoses && x !in rows && y in rows ==> x.stamp <= y.stamp)
    {
      if !ready || fault {
        return [];
      }
      NewestRows(diagnoses, nextDiagnosisId, clock, limit);
      rows := Take(Reverse(diagnoses), limit);
    }

    /** `getAllDiagnoses`: every diagnosis, newest first; `[]` on error. */
    method GetAllDiagnoses(fault: bool) returns (rows: seq<Row<DiagnosisData>>)
      requires Valid()
      ensures !ready || fault ==> rows == []
      ensures ready && !fault ==> NewestFirst(rows) && multiset(rows) == multiset(diagnoses)
    {
      if !ready || fault {
        return [];
      }
      ReverseIsNewestFirst(diagnoses, nextDiagnosisId, clock);
      rows := Reverse(diagnoses);
    }

    /** `deleteDiagnosis`: drop the rows with that id; true whether or not one matched. */
    method DeleteDiagnosis(id: int, fault: bool) returns (ok: bool)
      requires Valid()
      modifies this`diagnoses
      ensures Valid()
      ensures ok <==> ready && !fault
      ensures ok ==> diagnoses == WithoutId(old(diagnoses), id)
      ensures !ok ==> diagnoses == old(diagnoses)
    {
      if !ready || fault {
        return false;
      }
      DeleteRemovesExactlyThatId(diagnoses, id, nextDiagnosisId, clock);
      diagnoses := WithoutId(diagnoses, id);
      ok := true;
    }

    // -- favourite vets -------------------------------------------------------

    /** `addFavoriteVet`: insert, replacing the row with the same `place_id`. */
    method AddFavoriteVet(input: VetInput, elapsed: nat, fault: bool) returns (ok: bool)
      requires Valid()
      modifies this`favorites, this`nextFavoriteId, this`clock
      ensures Valid()
      ensures clock == old(clock) + elapsed
      ensures ok <==> ready && !fault
      ensures ok ==> favorites == UpsertVet(old(favorites), old(nextFavoriteId), clock, VetColumns(input))
                     && nextFavoriteId == old(nextFavoriteId) + 1
      ensures !ok ==> favorites == old(favorites) && nextFavoriteId == old(nextFavoriteId)
    {
      var now := clock + elapsed;
      LaterClock(profiles, pets, diagnoses, favorites, nextProfileId, nextPetId, nextDiagnosisId, nextFavoriteId,
                 clock, now);
      if !ready || fault {
        clock := now;
        return false;
      }
      var data := VetColumns(input);
      FavoritesUpsert(favorites, nextFavoriteId, now, data);
      favorites, nextFavoriteId, clock := UpsertVet(favorites, nextFavoriteId, now, data), nextFavoriteId + 1, now;
      ok := true;
    }

    /** `getFavoriteVets`: every favourite, newest `added_at` first; `[]` on error. */
    method GetFavoriteVets(fault: bool) returns (rows: seq<Row<VetData>>)
      requires Valid()
      ensures !ready || fault ==> rows == []
      ensures ready && !fault ==> NewestFirst(rows) && multiset(rows) == multiset(favorites)
    {
      if !ready || fault {
        return [];
      }
      ReverseIsNewestFirst(favorites, nextFavoriteId, clock);
      rows := Reverse(favorites);
    }

    /** `removeFavoriteVet`: drop the row with that `place_id`. */
    method RemoveFavoriteVet(placeId: string, fault: bool) returns (ok: bool)
      requires Valid()
      modifies this`favorites
      ensures Valid()
      ensures ok <==> ready && !fault
      ensures ok ==> favorites == WithoutPlace(old(favorites), placeId)
      ensures !ok ==> favorites == old(favorites)
    {
      if !ready || fault {
        return false;
      }
      FavoritesRemove(favorites, nextFavoriteId, clock, placeId);
      favorites := WithoutPlace(favorites, placeId);
      ok := true;
    }

    /** `isVetFavorite`: whether a row has that `place_id`; false on error. */
    method IsVetFavorite(placeId: string, fault: bool) returns (favorite: bool)
      requires Valid()
      ensures favorite <==> ready && !fault && HasPlace(favorites, placeId)
    {
      if !ready || fault {
        return false;
      }
      favorite := false;
      for i := 0 to |favorites|
        invariant favorite <==> exists k :: 0 <= k < i && favorites[k].data.placeId == placeId
      {
        if favorites[i].data.placeId == placeId {
          favorite := true;
        }
      }
    }

    // -- everything -----------------------------------------------------------

    /** `clearAllData`: delete the diagnoses, the favourites, the pets and the
        profile, in that order. `failAt` is the statement that fails, if any
        (0 to 3); the tables emptied before it stay empty and nothing is restored. */
    method ClearAllData(failAt: Option<nat>) returns (ok: bool)
      requires Valid()
      modifies this`diagnoses, this`favorites, this`pets, this`profiles
      ensures Valid()
      ensures ok <==> ready && (failAt.None? || failAt.value > 3)
      ensures var cleared := if !ready then 0 else if failAt.None? || failAt.value > 3 then 4 else failAt.value;
        && diagnoses == (if cleared > 0 then [] else old(diagnoses))
        && favorites == (if cleared > 1 then [] else old(favorites))
        && pets == (if cleared > 2 then [] else old(pets))
        && profiles == (if cleared > 3 then [] else old(profiles))
    {
      if !ready || failAt == Some(0) {
        return false;
      }
      diagnoses := [];
      if failAt == Some(1) {
        return false;
      }
      favorites := [];
      if failAt == Some(2) {
        return false;
      }
      pets := [];
      if failAt == Some(3) {
        return false;
      }
      profiles := [];
      ok := true;
    }
  }
}
