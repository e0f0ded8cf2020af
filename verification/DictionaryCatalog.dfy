/** The catalog of published compression dictionaries and the placements that use them. */
module DictionaryCatalog {
  import opened Base

  datatype CatalogError = EmptyDictionary | IdConflict | Unavailable

  /** One immutable publication; `dictionaries` and `placements` never change inside it. */
  datatype Snapshot = Snapshot(generation: u64, dictionaries: map<u128, Bytes>, placements: map<u64, u128>)

  /** Every assignment resolves, and no dictionary is empty. */
  ghost predicate Resolves(s: Snapshot)
  {
    && (forall p :: p in s.placements ==> s.placements[p] in s.dictionaries)
    && (forall id :: id in s.dictionaries ==> s.dictionaries[id] != [])
  }

  /** Dictionary ids keep their meaning from one publication to a later one. */
  ghost predicate Extends(earlier: Snapshot, later: Snapshot)
  {
    forall id :: id in earlier.dictionaries ==>
      id in later.dictionaries && later.dictionaries[id] == earlier.dictionaries[id]
  }

  function DictionaryFor(s: Snapshot, placement: u64): (r: Option<(u128, Bytes)>)
    ensures Resolves(s) ==> (r.Some? <==> placement in s.placements) && (r.Some? ==> r.value.1 != [])
  {
    if placement in s.placements && s.placements[placement] in s.dictionaries
    then Some((s.placements[placement], s.dictionaries[s.placements[placement]])) else None
  }

  class Catalog {
    var current: Snapshot
    /** The lock was poisoned by a panicking writer. */
    var poisoned: bool

    ghost predicate Valid()
      reads this
    {
      Resolves(current)
    }

    constructor ()
      ensures Valid() && current == Snapshot(0, map[], map[]) && !poisoned
    {
      current, poisoned := Snapshot(0, map[], map[]), false;
    }

    /**
      Assigns a dictionary to a placement. Other placements keep theirs, an id
      never comes to mean different bytes, and a refusal changes nothing.
     */
    method Publish(placement: u64, id: u128, payload: Bytes) returns (r: Result<u64, CatalogError>)
      requires Valid()
      modifies this
      ensures Valid() && Extends(old(current), current) && poisoned == old(poisoned)
      ensures r.Ok? <==>
        && payload != [] && !poisoned
        && (id in old(current).dictionaries ==> old(current).dictionaries[id] == payload)
      ensures r.Ok? ==> DictionaryFor(current, placement) == Some((id, payload))
      ensures r.Ok? ==> r.value == current.generation == (old(current).generation + 1) % TWO_64
      ensures forall p :: p != placement ==> DictionaryFor(current, p) == DictionaryFor(old(current), p)
      ensures forall other :: other in current.dictionaries ==> other == id || other in old(current).dictionaries
      ensures r.Err? ==> current == old(current)
      ensures r.Err? ==>
        r.error == (if payload == [] then EmptyDictionary else if poisoned then Unavailable else IdConflict)
    {
      if payload == [] { return Err(EmptyDictionary); }
      if poisoned { return Err(Unavailable); }
      if id in current.dictionaries && current.dictionaries[id] != payload { return Err(IdConflict); }
      current := Snapshot((current.generation + 1) % TWO_64,
                          current.dictionaries[id := payload], current.placements[placement := id]);
      return Ok(current.generation);
    }
  }
}
