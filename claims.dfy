/**
 * The decision bodies of `POST /api/lineups/:id/claim` and `.../unclaim`:
 * which error a request gets, in which order the checks run, and the rosters
 * a successful request produces. The in-place writes are in Sheets; the
 * store round trip is in Server.
 */
module Claims {
  import opened Wrappers
  import opened Text
  import opened Lineups

  /** A JavaScript number used as an array index: a whole number, or a number
      strictly between `floor` and `floor + 1`. */
  datatype Number = Whole(value: int) | Fractional(floor: int)

  /** `index` as the request body carries it: not a number at all, or a number. */
  datatype IndexArg = NonNumeric | Numeric(value: Number)

  /** The claim request body; an empty string is a missing or falsy field. */
  datatype ClaimBody = ClaimBody(participantId: string, team: string, index: IndexArg, name: string)

  /** The unclaim request body; it carries no name. */
  datatype UnclaimBody = UnclaimBody(participantId: string, team: string, index: IndexArg)

  /** A claim body that got past the `bad_request` check. */
  datatype ClaimArgs = ClaimArgs(participantId: string, team: string, index: Number, name: string)

  /** An unclaim body that got past the `bad_request` check. */
  datatype UnclaimArgs = UnclaimArgs(participantId: string, team: string, index: Number)

  /** `!participantId || !team || typeof index !== 'number' || !name` rejects the body. */
  function ParseClaim(body: ClaimBody): (r: Option<ClaimArgs>)
    ensures r == None <==> body.participantId == "" || body.team == "" || body.index.NonNumeric? || body.name == ""
    ensures r.Some? ==> r.value == ClaimArgs(body.participantId, body.team, body.index.value, body.name)
    ensures r.Some? ==> r.value.participantId != "" && r.value.name != "" && body.index == Numeric(r.value.index)
  {
    if body.participantId == "" || body.team == "" || body.index.NonNumeric? || body.name == "" then None
    else Some(ClaimArgs(body.participantId, body.team, body.index.value, body.name))
  }

  /** `!participantId || !team || typeof index !== 'number'` rejects the body. */
  function ParseUnclaim(body: UnclaimBody): (r: Option<UnclaimArgs>)
    ensures r == None <==> body.participantId == "" || body.team == "" || body.index.NonNumeric?
    ensures r.Some? ==> r.value == UnclaimArgs(body.participantId, body.team, body.index.value)
    ensures r.Some? ==> r.value.participantId != "" && body.index == Numeric(r.value.index)
  {
    if body.participantId == "" || body.team == "" || body.index.NonNumeric? then None
    else Some(UnclaimArgs(body.participantId, body.team, body.index.value))
  }

  /** `doc.players[team]` exists only for the two team keys. */
  function TeamOf(s: string): (r: Option<Team>)
    ensures r == Some(A) <==> s == "A"
    ensures r == Some(B) <==> s == "B"
  {
    if s == "A" then Some(A) else if s == "B" then Some(B) else None
  }

  /** `roster[x]` is a slot exactly when `x` is a whole number inside the array. */
  function SlotIndex(x: Number, n: nat): (r: Option<nat>)
    ensures r.Some? <==> x.Whole? && 0 <= x.value < n
    ensures r.Some? ==> r.value == x.value
  {
    if x.Whole? && 0 <= x.value < n then Some(x.value) else None
  }

  /** `doc.playersCount || 11` */
  function EffectiveCount(doc: Document): int {
    if doc.playersCount == 0 then DefaultPlayersCount else doc.playersCount
  }

  /** `index < 0 || index >= count`; for a number between `f` and `f + 1` and a whole
      `count`, that is `f < 0 || f >= count`. */
  predicate IndexOutOfRange(doc: Document, x: Number) {
    var i := match x
      case Whole(v) => v
      case Fractional(f) => f;
    i < 0 || i >= EffectiveCount(doc)
  }

  /** For a number strictly between `f` and `f + 1` and a whole `count`, JavaScript's
      `index < 0 || index >= count` is the test `IndexOutOfRange` makes on `f`. */
  lemma FractionalRangeTest(f: int, index: real, count: int)
    requires f as real < index < (f + 1) as real
    ensures (index < 0.0 || index >= count as real) <==> (f < 0 || f >= count)
  {
  }

  /** `roster.some(p => p.claimedBy === participantId)` */
  function AnyClaimedBy(s: seq<Slot>, pid: string): bool {
    if s == [] then false
    else if s[0].claimedBy == Some(pid) then true
    else AnyClaimedBy(s[1..], pid)
  }

  /** The scan finds `pid` exactly when some slot of the roster is held by `pid`. */
  lemma {:induction false} AnyClaimedBySpec(s: seq<Slot>, pid: string)
    ensures AnyClaimedBy(s, pid) <==> exists i :: 0 <= i < |s| && s[i].claimedBy == Some(pid)
  {
    if s != [] && s[0].claimedBy != Some(pid) {
      AnyClaimedBySpec(s[1..], pid);
      if AnyClaimedBy(s, pid) {
        var i :| 0 <= i < |s[1..]| && s[1..][i].claimedBy == Some(pid);
        assert s[i + 1] == s[1..][i];
      } else {
        forall i | 1 <= i < |s| ensures s[i].claimedBy != Some(pid) {
          assert s[i] == s[1..][i - 1];
        }
      }
    }
  }

  /** The participant holds a slot in either roster. */
  ghost predicate Holds(p: Players, pid: string) {
    exists t: Team, k :: 0 <= k < |p.Roster(t)| && p.Roster(t)[k].claimedBy == Some(pid)
  }

  /** The `already_used` scan over `['A', 'B']`. */
  function ScanForHolder(p: Players, pid: string): (r: bool)
    ensures r <==> Holds(p, pid)
  {
    var r := AnyClaimedBy(p.a, pid) || AnyClaimedBy(p.b, pid);
    AnyClaimedBySpec(p.a, pid);
    AnyClaimedBySpec(p.b, pid);
    assert Holds(p, pid) ==> r by {
      if Holds(p, pid) {
        var t: Team, k :| 0 <= k < |p.Roster(t)| && p.Roster(t)[k].claimedBy == Some(pid);
      }
    }
    assert r ==> Holds(p, pid) by {
      if AnyClaimedBy(p.a, pid) {
        var k :| 0 <= k < |p.a| && p.a[k].claimedBy == Some(pid);
        assert p.Roster(A)[k].claimedBy == Some(pid);
      } else if AnyClaimedBy(p.b, pid) {
        var k :| 0 <= k < |p.b| && p.b[k].claimedBy == Some(pid);
        assert p.Roster(B)[k].claimedBy == Some(pid);
      }
    }
    r
  }

  /** `slot?.name?.trim()` is truthy. */
  predicate IsTaken(s: Slot) {
    Trim(s.name) != ""
  }

  /** A slot counts as taken exactly when its name is not all white space. */
  lemma TakenIffNotBlank(s: Slot)
    ensures IsTaken(s) <==> !AllSpace(s.name)
  {
    TrimSpec(s.name);
  }

  /** The slot a claim writes: the same number, the trimmed name, the caller as holder. */
  function Claimed(s: Slot, name: string, pid: string): Slot {
    Slot(s.number, Trim(name), Some(pid))
  }

  /** The slot an unclaim writes: the same number, `name = ''`, `claimedBy = null`. */
  function Released(s: Slot): Slot {
    Slot(s.number, "", None)
  }

  /** A claimed slot keeps its number and is held by the caller; it shows as taken
      exactly when the name given is not all white space. */
  lemma ClaimedSlotShowsName(s: Slot, name: string, pid: string)
    ensures Claimed(s, name, pid).number == s.number
    ensures Claimed(s, name, pid).claimedBy == Some(pid)
    ensures IsTaken(Claimed(s, name, pid)) <==> !AllSpace(name)
  {
    TrimSpec(name);
    TrimIdempotent(name);
  }

  /** A released slot keeps its number and is open again, so no later claim sees it as taken. */
  lemma ReleasedSlotIsOpen(s: Slot)
    ensures Released(s).number == s.number
    ensures Released(s).IsOpen() && !IsTaken(Released(s))
  {
  }

  /**
   * The claim handler once the body is well formed and the lineup is loaded.
   * A team other than "A" and "B", or an index that passes the range check but
   * is not a whole number, makes the JavaScript throw a TypeError, answered as
   * `db_error` before anything is written.
   */
  function DecideClaim(doc: Document, now: int, args: ClaimArgs): Result<Players, ErrorCode> {
    if IsExpired(doc, now) then Failure(LinkExpired)
    else if IndexOutOfRange(doc, args.index) then Failure(OutOfRange)
    else if ScanForHolder(doc.players, args.participantId) then Failure(AlreadyUsed)
    else match TeamOf(args.team)
      case None => Failure(DbError)
      case Some(t) =>
        var roster := doc.players.Roster(t);
        match SlotIndex(args.index, |roster|)
        case None => Failure(DbError)
        case Some(k) =>
          if IsTaken(roster[k]) then Failure(SlotTaken)
          else Success(doc.players.With(t, k, Claimed(roster[k], args.name, args.participantId)))
  }

  /** The whole claim handler, given what `loadLineup` returned. */
  function ClaimOutcome(found: Option<Document>, now: int, body: ClaimBody): Result<Players, ErrorCode> {
    match ParseClaim(body)
    case None => Failure(BadRequest)
    case Some(args) =>
      match found
      case None => Failure(NotFound)
      case Some(doc) => DecideClaim(doc, now, args)
  }

  /** The unclaim handler once the body is well formed and the lineup is loaded;
      it does not look at `playersCount`. */
  function DecideUnclaim(doc: Document, now: int, args: UnclaimArgs): Result<Players, ErrorCode> {
    if IsExpired(doc, now) then Failure(LinkExpired)
    else match TeamOf(args.team)
      case None => Failure(DbError)
      case Some(t) =>
        var roster := doc.players.Roster(t);
        match SlotIndex(args.index, |roster|)
        case None => Failure(NotYourSlot)
        case Some(k) =>
          if roster[k].claimedBy != Some(args.participantId) then Failure(NotYourSlot)
          else Success(doc.players.With(t, k, Released(roster[k])))
  }

  /** The whole unclaim handler, given what `loadLineup` returned. */
  function UnclaimOutcome(found: Option<Document>, now: int, body: UnclaimBody): Result<Players, ErrorCode> {
    match ParseUnclaim(body)
    case None => Failure(BadRequest)
    case Some(args) =>
      match found
      case None => Failure(NotFound)
      case Some(doc) => DecideUnclaim(doc, now, args)
  }
}
