/**
 * The in-memory store and the four lineup routes on top of it. A route is
 * given the lineup id, the request body and the current time; the id a new
 * lineup gets is a parameter, since it comes from the clock and a random
 * number.
 */
module Server {
  import opened Wrappers
  import opened Lineups
  import opened Claims
  import opened ClaimLaws
  import opened Sheets

  /** `memoryStore`: the lineups by id. */
  class MemoryStore {
    var docs: map<string, Document>

    constructor ()
      ensures docs == map[]
    {
      docs := map[];
    }

    /** What `loadLineup(id)` answers: the stored document, or `null`. */
    function Find(id: string): (r: Option<Document>)
      reads this
      ensures r.Some? <==> id in docs
      ensures r.Some? ==> r.value == docs[id]
    {
      if id in docs then Some(docs[id]) else None
    }

    /** Every stored lineup is one that creation and the handlers can produce. */
    ghost predicate AllValid()
      reads this
    {
      forall id :: id in docs ==> Valid(docs[id])
    }

    /** `saveLineup(doc)` under the id `id`; an id already in use is overwritten. */
    method SaveLineup(id: string, doc: Document)
      modifies this
      ensures docs == old(docs)[id := doc]
    {
      docs := docs[id := doc];
    }

    /** `loadLineup(id)` */
    method LoadLineup(id: string) returns (r: Option<Document>)
      ensures r.Some? <==> id in docs
      ensures r.Some? ==> r.value == docs[id]
    {
      if id in docs {
        r := Some(docs[id]);
      } else {
        r := None;
      }
    }

    /** `updatePlayers(id, players)`: replaces the rosters of a stored lineup and
        nothing else; answers `false` when there is no such lineup. */
    method UpdatePlayers(id: string, players: Players) returns (ok: bool)
      modifies this
      ensures ok <==> id in old(docs)
      ensures docs == if ok then old(docs)[id := old(docs)[id].(players := players)] else old(docs)
    {
      if id !in docs {
        return false;
      }
      var doc := docs[id];
      docs := docs[id := doc.(players := players)];
      ok := true;
    }
  }

  /** `POST /api/lineups`: stores a new lineup under `id` and answers it. */
  method CreateLineup(store: MemoryStore, id: string, payload: CreatePayload, now: int) returns (doc: Document)
    modifies store
    ensures doc == NewLineup(payload, now)
    ensures store.docs == old(store.docs)[id := doc]
    ensures old(store.AllValid()) ==> store.AllValid()
  {
    doc := NewLineup(payload, now);
    store.SaveLineup(id, doc);
  }

  /** `GET /api/lineups/:id`: reads without writing. */
  method GetLineup(store: MemoryStore, id: string, now: int) returns (r: Result<View, ErrorCode>)
    ensures r == ReadLineup(store.Find(id), now)
    ensures r.Success? <==> id in store.docs && !IsExpired(store.docs[id], now)
  {
    var found := store.LoadLineup(id);
    r := ReadLineup(found, now);
  }

  /**
   * `POST /api/lineups/:id/claim`: answers as the claim decision does, and
   * stores the new rosters exactly when it succeeds; every other lineup, and
   * every other field of this one, stays as it was.
   */
  method ClaimSlot(store: MemoryStore, id: string, now: int, body: ClaimBody) returns (r: Result<Players, ErrorCode>)
    modifies store
    ensures r == ClaimOutcome(old(store.Find(id)), now, body)
    ensures store.docs == if r.Success? then old(store.docs)[id := old(store.docs)[id].(players := r.value)] else old(store.docs)
    ensures old(store.AllValid()) ==> store.AllValid()
  {
    var parsed := ParseClaim(body);
    if parsed.None? {
      return Failure(BadRequest);
    }
    var args := parsed.value;
    var found := store.LoadLineup(id);
    if found.None? {
      return Failure(NotFound);
    }
    var sheet := new LineupSheet.Load(found.value);
    var err := sheet.Claim(now, args);
    if err.Some? {
      return Failure(err.value);
    }
    var players := sheet.Players();
    var _ := store.UpdatePlayers(id, players);
    r := Success(players);
    if old(store.AllValid()) {
      ClaimKeepsLineupValid(found.value, now, args);
    }
  }

  /**
   * `POST /api/lineups/:id/unclaim`: answers as the unclaim decision does, and
   * stores the new rosters exactly when it succeeds.
   */
  method UnclaimSlot(store: MemoryStore, id: string, now: int, body: UnclaimBody) returns (r: Result<Players, ErrorCode>)
    modifies store
    ensures r == UnclaimOutcome(old(store.Find(id)), now, body)
    ensures store.docs == if r.Success? then old(store.docs)[id := old(store.docs)[id].(players := r.value)] else old(store.docs)
    ensures old(store.AllValid()) ==> store.AllValid()
  {
    var parsed := ParseUnclaim(body);
    if parsed.None? {
      return Failure(BadRequest);
    }
    var args := parsed.value;
    var found := store.LoadLineup(id);
    if found.None? {
      return Failure(NotFound);
    }
    var sheet := new LineupSheet.Load(found.value);
    var err := sheet.Unclaim(now, args);
    if err.Some? {
      return Failure(err.value);
    }
    var players := sheet.Players();
    var _ := store.UpdatePlayers(id, players);
    r := Success(players);
    if old(store.AllValid()) {
      UnclaimKeepsLineupValid(found.value, now, args);
    }
  }
}
