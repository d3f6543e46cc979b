/**
 * The lineup document: two rosters of eleven slots, the usable player count,
 * and the 48-hour lifetime of the share link. Creation and the read handler
 * are pure record construction and live here; claim and unclaim are in Claims.
 */
module Lineups {
  import opened Wrappers

  datatype Team = A | B

  /** Every roster has eleven physical slots, whatever the player count. */
  const SlotsPerTeam: nat := 11
  const MinPlayers: int := 7
  const MaxPlayers: int := 11
  /** The count used when the creation payload gives none, zero or a non-number. */
  const DefaultPlayersCount: int := 11
  /** 48 hours in milliseconds. */
  const LinkLifetimeMs: int := 48 * 60 * 60 * 1000

  const DefaultTeamAName: string := "فريق A"
  const DefaultTeamBName: string := "فريق B"
  const DefaultTeamAColor: string := "#2563eb"
  const DefaultTeamBColor: string := "#dc2626"

  /** The error codes the handlers answer with; `DbError` is the catch-all of a thrown exception. */
  datatype ErrorCode =
    | BadRequest | NotFound | LinkExpired | OutOfRange | AlreadyUsed | SlotTaken | NotYourSlot | DbError

  /** One roster position; `claimedBy == None` is JavaScript's `null`. */
  datatype Slot = Slot(number: int, name: string, claimedBy: Option<string>) {
    predicate IsOpen() {
      name == "" && claimedBy == None
    }
  }

  /** `doc.players`: the roster of team A and the roster of team B. */
  datatype Players = Players(a: seq<Slot>, b: seq<Slot>) {

    /** `players[team]` */
    function Roster(t: Team): seq<Slot> {
      match t
      case A => a
      case B => b
    }

    /** Both rosters, A first: the order in which the `already_used` scan visits them. */
    function Slots(): (s: seq<Slot>)
      ensures |s| == |a| + |b|
    {
      a + b
    }

    /** The position of `players[t][k]` in `Slots()`. */
    function Offset(t: Team, k: nat): nat {
      match t
      case A => k
      case B => |a| + k
    }

    /** The rosters with `players[t][k]` replaced by `s` and everything else as it was. */
    function With(t: Team, k: nat, s: Slot): (p: Players)
      requires k < |Roster(t)|
      ensures p.Roster(t) == Roster(t)[k := s]
      ensures forall u :: u != t ==> p.Roster(u) == Roster(u)
    {
      match t
      case A => Players(a[k := s], b)
      case B => Players(a, b[k := s])
    }
  }

  /** Writing one slot of a roster writes one position of both rosters together. */
  lemma WithSlots(p: Players, t: Team, k: nat, s: Slot)
    requires k < |p.Roster(t)|
    ensures p.Offset(t, k) < |p.Slots()|
    ensures p.With(t, k, s).Slots() == p.Slots()[p.Offset(t, k) := s]
  {
  }

  /** The stored lineup. `positions` and a caller-supplied roster are not part of this model. */
  datatype Document = Document(
    teamAName: string, teamBName: string,
    teamAColor: string, teamBColor: string,
    players: Players,
    playersCount: int,
    createdAt: int,
    expiresAt: int)

  /** The creation payload after JavaScript's coercions: an empty string is a missing or falsy
      field, and `playersCount` is `Number(payload.playersCount)`, with `None` for `NaN`. */
  datatype CreatePayload = CreatePayload(
    teamAName: string, teamBName: string,
    teamAColor: string, teamBColor: string,
    playersCount: Option<int>)

  /** What the read handler answers with: the document without its timestamps. */
  datatype View = View(
    teamAName: string, teamBName: string,
    teamAColor: string, teamBColor: string,
    players: Players,
    playersCount: int)

  /** `Math.max(lo, Math.min(hi, n))` */
  function Clamp(n: int, lo: int, hi: int): (r: int)
    ensures lo <= hi ==> lo <= r <= hi
    ensures lo <= n <= hi ==> r == n
    ensures n < lo ==> r == lo
    ensures lo <= hi < n ==> r == hi
  {
    var m := if n < hi then n else hi;
    if lo < m then m else lo
  }

  /** `clamp(Number(x) || 11, 7, 11)`: zero and `NaN` are falsy and give the default. */
  function PlayersCountFrom(input: Option<int>): (r: int)
    ensures MinPlayers <= r <= MaxPlayers
    ensures input.Some? && MinPlayers <= input.value <= MaxPlayers ==> r == input.value
    ensures input == None || input == Some(0) ==> r == DefaultPlayersCount
    ensures input.Some? && input.value != 0 && input.value < MinPlayers ==> r == MinPlayers
    ensures input.Some? && input.value > MaxPlayers ==> r == MaxPlayers
  {
    var n := match input
      case Some(x) => if x != 0 then x else DefaultPlayersCount
      case None => DefaultPlayersCount;
    Clamp(n, MinPlayers, MaxPlayers)
  }

  /** `makePlayers()`: eleven open slots numbered 1 to 11. */
  function MakePlayers(): (r: seq<Slot>)
    ensures |r| == SlotsPerTeam
    ensures forall k :: 0 <= k < |r| ==> r[k].number == k + 1 && r[k].IsOpen()
  {
    seq(SlotsPerTeam, k => Slot(k + 1, "", None))
  }

  /** `x || fallback` on a string field. */
  function OrDefault(s: string, fallback: string): string {
    if s == "" then fallback else s
  }

  /** Slots 1..11 in order, as makePlayers numbers them and no handler renumbers them. */
  predicate WellNumbered(r: seq<Slot>) {
    |r| == SlotsPerTeam && forall k :: 0 <= k < |r| ==> r[k].number == k + 1
  }

  /** No participant holds two slots, across both rosters. */
  predicate OneSlotPerParticipant(p: Players) {
    var s := p.Slots();
    forall i, j :: 0 <= i < j < |s| && s[i].claimedBy.Some? ==> s[i].claimedBy != s[j].claimedBy
  }

  /** A slot nobody holds has an empty name. */
  predicate UnclaimedSlotsBlank(p: Players) {
    var s := p.Slots();
    forall i :: 0 <= i < |s| && s[i].claimedBy == None ==> s[i].name == ""
  }

  /** What every stored lineup satisfies, from creation on. */
  predicate Valid(doc: Document) {
    && WellNumbered(doc.players.a)
    && WellNumbered(doc.players.b)
    && MinPlayers <= doc.playersCount <= MaxPlayers
    && doc.expiresAt == doc.createdAt + LinkLifetimeMs
    && OneSlotPerParticipant(doc.players)
    && UnclaimedSlotsBlank(doc.players)
  }

  /** The document built by `POST /api/lineups` at time `now` (milliseconds). */
  function NewLineup(payload: CreatePayload, now: int): (doc: Document)
    ensures Valid(doc)
    ensures doc.createdAt == now && doc.expiresAt == now + LinkLifetimeMs
    ensures doc.playersCount == PlayersCountFrom(payload.playersCount)
    ensures forall t, k :: 0 <= k < |doc.players.Roster(t)| ==> doc.players.Roster(t)[k].IsOpen()
    ensures doc.teamAName != "" && doc.teamBName != "" && doc.teamAColor != "" && doc.teamBColor != ""
    ensures payload.teamAName != "" ==> doc.teamAName == payload.teamAName
    ensures payload.teamBName != "" ==> doc.teamBName == payload.teamBName
    ensures payload.teamAColor != "" ==> doc.teamAColor == payload.teamAColor
    ensures payload.teamBColor != "" ==> doc.teamBColor == payload.teamBColor
    ensures payload.teamAName == "" ==> doc.teamAName == DefaultTeamAName
    ensures payload.teamBName == "" ==> doc.teamBName == DefaultTeamBName
    ensures payload.teamAColor == "" ==> doc.teamAColor == DefaultTeamAColor
    ensures payload.teamBColor == "" ==> doc.teamBColor == DefaultTeamBColor
  {
    Document(
      OrDefault(payload.teamAName, DefaultTeamAName),
      OrDefault(payload.teamBName, DefaultTeamBName),
      OrDefault(payload.teamAColor, DefaultTeamAColor),
      OrDefault(payload.teamBColor, DefaultTeamBColor),
      Players(MakePlayers(), MakePlayers()),
      PlayersCountFrom(payload.playersCount),
      now,
      now + LinkLifetimeMs)
  }

  /** `doc.expiresAt < new Date()`: strictly after the deadline, so the last millisecond still counts. */
  predicate IsExpired(doc: Document, now: int) {
    doc.expiresAt < now
  }

  /** `GET /api/lineups/:id`, given what `loadLineup` returned. */
  function ReadLineup(found: Option<Document>, now: int): (r: Result<View, ErrorCode>)
    ensures found == None ==> r == Failure(NotFound)
    ensures found.Some? && IsExpired(found.value, now) ==> r == Failure(LinkExpired)
    ensures r.Success? <==> found.Some? && !IsExpired(found.value, now)
    ensures r.Success? ==> r.value.players == found.value.players && r.value.playersCount == found.value.playersCount
  {
    match found
    case None => Failure(NotFound)
    case Some(doc) =>
      if IsExpired(doc, now) then Failure(LinkExpired)
      else Success(View(doc.teamAName, doc.teamBName, doc.teamAColor, doc.teamBColor, doc.players, doc.playersCount))
  }

  /** A lineup can be used up to and including its 48th hour, and not a millisecond after. */
  lemma ExpiryIsStrict(payload: CreatePayload, created: int)
    ensures !IsExpired(NewLineup(payload, created), created + LinkLifetimeMs)
    ensures IsExpired(NewLineup(payload, created), created + LinkLifetimeMs + 1)
    ensures forall now :: IsExpired(NewLineup(payload, created), now) <==> now > created + 48 * 3600 * 1000
  {
  }

  /** The player counts a creation payload can produce, for the inputs worth naming. */
  lemma PlayersCountExamples()
    ensures PlayersCountFrom(None) == 11
    ensures PlayersCountFrom(Some(0)) == 11
    ensures PlayersCountFrom(Some(3)) == 7
    ensures PlayersCountFrom(Some(-5)) == 7
    ensures PlayersCountFrom(Some(9)) == 9
    ensures PlayersCountFrom(Some(99)) == 11
  {
  }
}
