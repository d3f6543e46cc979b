/**
 * What the claim and unclaim decisions promise: the order of their checks,
 * which slot they write, the invariants of a stored lineup they keep, and the
 * claim/unclaim round trip.
 */
module ClaimLaws {
  import opened Wrappers
  import opened Text
  import opened Lineups
  import opened Claims

  /** One validation step of a handler: whether it fails, and the code answered when it does. */
  datatype Check = Check(fails: bool, code: ErrorCode)

  /** The code of the earliest failing step: what a handler that returns at its first failure answers. */
  function FirstFailure(checks: seq<Check>): (r: Option<ErrorCode>)
    ensures r == None <==> forall i :: 0 <= i < |checks| ==> !checks[i].fails
    ensures r.Some? ==> exists i :: 0 <= i < |checks| && checks[i].fails && checks[i].code == r.value
                          && forall j :: 0 <= j < i ==> !checks[j].fails
  {
    if checks == [] then None
    else if checks[0].fails then Some(checks[0].code)
    else
      var r := FirstFailure(checks[1..]);
      assert forall i :: 1 <= i < |checks| ==> checks[i] == checks[1..][i - 1];
      assert r.Some? ==> exists i :: 0 <= i < |checks| && checks[i].fails && checks[i].code == r.value
                          && forall j :: 0 <= j < i ==> !checks[j].fails by {
        if r.Some? {
          var i :| 0 <= i < |checks[1..]| && checks[1..][i].fails && checks[1..][i].code == r.value
                   && forall j :: 0 <= j < i ==> !checks[1..][j].fails;
          assert forall j :: 0 <= j < i + 1 ==> !checks[j].fails by {
            forall j | 0 <= j < i + 1 ensures !checks[j].fails {
              if j > 0 { assert checks[j] == checks[1..][j - 1]; }
            }
          }
        }
      }
      r
  }

  /** `players[team][index]` exists and trims to a non-empty name. */
  predicate TargetTaken(p: Players, team: string, x: Number) {
    match TeamOf(team)
    case None => false
    case Some(t) =>
      match SlotIndex(x, |p.Roster(t)|)
      case None => false
      case Some(k) => IsTaken(p.Roster(t)[k])
  }

  /** `players[team][index]` does not exist, so writing to it throws. */
  predicate TargetMissing(p: Players, team: string, x: Number) {
    TeamOf(team).None? || SlotIndex(x, |p.Roster(TeamOf(team).value)|).None?
  }

  /** The six documented checks of the claim handler, in order, each one judged on its own. */
  ghost function ClaimChecks(found: Option<Document>, now: int, body: ClaimBody): (cs: seq<Check>)
    ensures |cs| == 6
  {
    var loaded := found.Some? && body.index.Numeric?;
    [ Check(ParseClaim(body).None?, BadRequest),
      Check(found.None?, NotFound),
      Check(found.Some? && IsExpired(found.value, now), LinkExpired),
      Check(loaded && IndexOutOfRange(found.value, body.index.value), OutOfRange),
      Check(found.Some? && Holds(found.value.players, body.participantId), AlreadyUsed),
      Check(loaded && TargetTaken(found.value.players, body.team, body.index.value), SlotTaken) ]
  }

  /**
   * The claim handler answers with the first of its six checks that fails.
   * When none fails, it writes the slot, unless the team or the slot does not
   * exist, in which case the JavaScript throws and the answer is `db_error`.
   */
  lemma ClaimAnswersFirstFailedCheck(found: Option<Document>, now: int, body: ClaimBody)
    ensures var r := ClaimOutcome(found, now, body);
            var first := FirstFailure(ClaimChecks(found, now, body));
            && (first.Some? ==> r == Failure(first.value))
            && (first.None? ==> found.Some? && body.index.Numeric?)
            && (first.None? ==> (r.Success? <==> !TargetMissing(found.value.players, body.team, body.index.value)))
            && (first.None? && r.Failure? ==> r.error == DbError)
  {
    var cs := ClaimChecks(found, now, body);
    var r := ClaimOutcome(found, now, body);
    var first := FirstFailure(cs);
    if first.Some? {
      var i :| 0 <= i < |cs| && cs[i].fails && cs[i].code == first.value
               && forall j :: 0 <= j < i ==> !cs[j].fails;
      assert i >= 1 ==> !cs[0].fails;
      assert i >= 2 ==> !cs[1].fails;
      assert i >= 3 ==> !cs[2].fails;
      assert i >= 4 ==> !cs[3].fails;
      assert i >= 5 ==> !cs[4].fails;
    } else {
      assert !cs[0].fails && !cs[1].fails && !cs[2].fails;
      assert !cs[3].fails && !cs[4].fails && !cs[5].fails;
    }
  }

  /** `players[team][index]` of a known team does not exist, or is held by someone other than `pid`. */
  predicate NotCallersSlot(p: Players, team: string, x: Number, pid: string) {
    match TeamOf(team)
    case None => false
    case Some(t) =>
      match SlotIndex(x, |p.Roster(t)|)
      case None => true
      case Some(k) => p.Roster(t)[k].claimedBy != Some(pid)
  }

  /** The four documented checks of the unclaim handler, in order, each one judged on its own. */
  function UnclaimChecks(found: Option<Document>, now: int, body: UnclaimBody): (cs: seq<Check>)
    ensures |cs| == 4
  {
    var loaded := found.Some? && body.index.Numeric?;
    [ Check(ParseUnclaim(body).None?, BadRequest),
      Check(found.None?, NotFound),
      Check(found.Some? && IsExpired(found.value, now), LinkExpired),
      Check(loaded && NotCallersSlot(found.value.players, body.team, body.index.value, body.participantId), NotYourSlot) ]
  }

  /**
   * The unclaim handler answers with the first of its four checks that fails.
   * When none fails, it releases the slot, unless the team does not exist, in
   * which case the JavaScript throws and the answer is `db_error`.
   */
  lemma UnclaimAnswersFirstFailedCheck(found: Option<Document>, now: int, body: UnclaimBody)
    ensures var r := UnclaimOutcome(found, now, body);
            var first := FirstFailure(UnclaimChecks(found, now, body));
            && (first.Some? ==> r == Failure(first.value))
            && (first.None? ==> found.Some? && body.index.Numeric?)
            && (first.None? ==> (r.Success? <==> TeamOf(body.team).Some?))
            && (first.None? && r.Failure? ==> r.error == DbError)
  {
    var cs := UnclaimChecks(found, now, body);
    var first := FirstFailure(cs);
    if first.Some? {
      var i :| 0 <= i < |cs| && cs[i].fails && cs[i].code == first.value
               && forall j :: 0 <= j < i ==> !cs[j].fails;
      assert i >= 1 ==> !cs[0].fails;
      assert i >= 2 ==> !cs[1].fails;
      assert i >= 3 ==> !cs[2].fails;
    } else {
      assert !cs[0].fails && !cs[1].fails && !cs[2].fails && !cs[3].fails;
    }
  }

  /** An id the store does not know is answered `not_found` by every route, except a
      malformed claim or unclaim, which is turned away as `bad_request` first. */
  lemma UnknownLineupAnswersNotFound(now: int, claim: ClaimBody, unclaim: UnclaimBody)
    ensures ReadLineup(None, now) == Failure(NotFound)
    ensures ClaimOutcome(None, now, claim) == if ParseClaim(claim).None? then Failure(BadRequest) else Failure(NotFound)
    ensures UnclaimOutcome(None, now, unclaim) == if ParseUnclaim(unclaim).None? then Failure(BadRequest) else Failure(NotFound)
  {
  }

  /**
   * On a valid lineup the `|| 11` fallback never applies: the count is the stored
   * one, a whole index passes the range test exactly when it lies in [0, count),
   * and such an index always names an existing slot of either roster.
   */
  lemma RangeCheckOnValidLineup(doc: Document, x: Number, t: Team)
    requires Valid(doc)
    ensures EffectiveCount(doc) == doc.playersCount
    ensures x.Whole? ==> (IndexOutOfRange(doc, x) <==> !(0 <= x.value < doc.playersCount))
    ensures x.Whole? && !IndexOutOfRange(doc, x) ==> SlotIndex(x, |doc.players.Roster(t)|) == Some(x.value)
  {
  }

  /** A participant who holds any slot, in either team, is answered `already_used`,
      even when the slot asked for is open. */
  lemma HolderIsAnsweredAlreadyUsed(doc: Document, now: int, args: ClaimArgs, t: Team, k: nat)
    requires !IsExpired(doc, now) && !IndexOutOfRange(doc, args.index)
    requires k < |doc.players.Roster(t)| && doc.players.Roster(t)[k].claimedBy == Some(args.participantId)
    ensures DecideClaim(doc, now, args) == Failure(AlreadyUsed)
  {
    assert Holds(doc.players, args.participantId);
  }

  /** Where a successful claim writes: a whole index into a known team's roster. */
  lemma ClaimTarget(doc: Document, now: int, args: ClaimArgs, p: Players)
    requires DecideClaim(doc, now, args) == Success(p)
    ensures TeamOf(args.team).Some?
    ensures var t, k := TeamOf(args.team).value, args.index.value;
      && 0 <= k < |doc.players.Roster(t)| && SlotIndex(args.index, |doc.players.Roster(t)|) == Some(k)
      && !IsTaken(doc.players.Roster(t)[k])
      && p == doc.players.With(t, k, Claimed(doc.players.Roster(t)[k], args.name, args.participantId))
  {
  }

  /**
   * A successful claim writes one slot: `players[team][index]` gets the trimmed
   * name and the caller as holder and keeps its number; every other slot of
   * both teams is as it was; the index was a whole number below the count.
   */
  lemma ClaimWritesOnlyTarget(doc: Document, now: int, args: ClaimArgs)
    requires DecideClaim(doc, now, args).Success?
    ensures TeamOf(args.team).Some?
    ensures var t, k, p := TeamOf(args.team).value, args.index.value, DecideClaim(doc, now, args).value;
            && args.index == Whole(k) && 0 <= k < EffectiveCount(doc) && k < |doc.players.Roster(t)|
            && !IsTaken(doc.players.Roster(t)[k])
            && !Holds(doc.players, args.participantId)
            && p.Roster(t)[k] == Slot(doc.players.Roster(t)[k].number, Trim(args.name), Some(args.participantId))
            && (forall u :: |p.Roster(u)| == |doc.players.Roster(u)|)
            && (forall u, j :: 0 <= j < |p.Roster(u)| && (u != t || j != k) ==> p.Roster(u)[j] == doc.players.Roster(u)[j])
  {
    ClaimTarget(doc, now, args, DecideClaim(doc, now, args).value);
  }

  /** The converse: a claim that passes every check writes the slot it names. */
  lemma ClaimSucceedsWhenChecksPass(doc: Document, now: int, args: ClaimArgs, t: Team, k: nat)
    requires !IsExpired(doc, now) && !IndexOutOfRange(doc, args.index)
    requires TeamOf(args.team) == Some(t) && k < |doc.players.Roster(t)| && args.index == Whole(k)
    requires !Holds(doc.players, args.participantId) && !IsTaken(doc.players.Roster(t)[k])
    ensures DecideClaim(doc, now, args)
              == Success(doc.players.With(t, k, Slot(doc.players.Roster(t)[k].number, Trim(args.name), Some(args.participantId))))
  {
    assert SlotIndex(args.index, |doc.players.Roster(t)|) == Some(k);
  }

  /** Slot `i` of both rosters together is held by `pid` for some `i` exactly when `pid` holds a slot. */
  lemma HoldsInSlots(p: Players, pid: string)
    ensures Holds(p, pid) <==> exists i :: 0 <= i < |p.Slots()| && p.Slots()[i].claimedBy == Some(pid)
  {
    var s := p.Slots();
    if Holds(p, pid) {
      var t: Team, k :| 0 <= k < |p.Roster(t)| && p.Roster(t)[k].claimedBy == Some(pid);
      assert s[p.Offset(t, k)] == p.Roster(t)[k];
    }
    if i :| 0 <= i < |s| && s[i].claimedBy == Some(pid) {
      if i < |p.a| {
        assert p.Roster(A)[i] == s[i];
      } else {
        assert p.Roster(B)[i - |p.a|] == s[i];
      }
    }
  }

  /** Writing a slot keeps the one-slot-per-participant rule when the new holder held nothing. */
  lemma WriteKeepsOneSlotPerParticipant(p: Players, t: Team, k: nat, s: Slot)
    requires k < |p.Roster(t)| && OneSlotPerParticipant(p)
    requires s.claimedBy.Some? ==> !Holds(p, s.claimedBy.value)
    ensures OneSlotPerParticipant(p.With(t, k, s))
  {
    var q := p.With(t, k, s);
    var o := p.Offset(t, k);
    WithSlots(p, t, k, s);
    if s.claimedBy.Some? {
      HoldsInSlots(p, s.claimedBy.value);
    }
    forall i, j | 0 <= i < j < |q.Slots()| && q.Slots()[i].claimedBy.Some?
      ensures q.Slots()[i].claimedBy != q.Slots()[j].claimedBy
    {
      if i == o {
        assert p.Slots()[j].claimedBy != s.claimedBy;
      } else if j == o {
        assert p.Slots()[i].claimedBy != s.claimedBy;
      }
    }
  }

  /** Writing a slot that is held, or blank, keeps unheld slots blank. */
  lemma WriteKeepsUnclaimedSlotsBlank(p: Players, t: Team, k: nat, s: Slot)
    requires k < |p.Roster(t)| && UnclaimedSlotsBlank(p)
    requires s.claimedBy == None ==> s.name == ""
    ensures UnclaimedSlotsBlank(p.With(t, k, s))
  {
    WithSlots(p, t, k, s);
  }

  /** Writing a slot with its own number keeps the numbering. */
  lemma WriteKeepsNumbering(p: Players, t: Team, k: nat, s: Slot)
    requires k < |p.Roster(t)| && WellNumbered(p.a) && WellNumbered(p.b)
    requires s.number == p.Roster(t)[k].number
    ensures WellNumbered(p.With(t, k, s).a) && WellNumbered(p.With(t, k, s).b)
  {
  }

  /** A successful claim leaves a valid lineup valid; in particular nobody holds two slots after it. */
  lemma ClaimKeepsLineupValid(doc: Document, now: int, args: ClaimArgs)
    requires Valid(doc) && DecideClaim(doc, now, args).Success?
    ensures Valid(doc.(players := DecideClaim(doc, now, args).value))
  {
    ClaimWritesOnlyTarget(doc, now, args);
    var t, k := TeamOf(args.team).value, args.index.value;
    var s := Claimed(doc.players.Roster(t)[k], args.name, args.participantId);
    assert DecideClaim(doc, now, args).value == doc.players.With(t, k, s);
    WriteKeepsOneSlotPerParticipant(doc.players, t, k, s);
    WriteKeepsUnclaimedSlotsBlank(doc.players, t, k, s);
    WriteKeepsNumbering(doc.players, t, k, s);
  }

  /**
   * An unclaim succeeds exactly when the lineup is live and `players[team][index]`
   * exists and is held by the caller; it then blanks that slot and nothing else.
   * A live request on a known team that fails is answered `not_your_slot`,
   * whether the slot is open, held by someone else or does not exist.
   */
  lemma UnclaimSucceedsOnlyForHolder(doc: Document, now: int, args: UnclaimArgs)
    ensures var r := DecideUnclaim(doc, now, args);
            && (r.Success? <==>
                  && !IsExpired(doc, now)
                  && TeamOf(args.team).Some?
                  && SlotIndex(args.index, |doc.players.Roster(TeamOf(args.team).value)|).Some?
                  && doc.players.Roster(TeamOf(args.team).value)[args.index.value].claimedBy == Some(args.participantId))
            && (r.Success? ==>
                  var t, k := TeamOf(args.team).value, args.index.value;
                  r.value == doc.players.With(t, k, Slot(doc.players.Roster(t)[k].number, "", None)))
            && (r.Failure? && !IsExpired(doc, now) && TeamOf(args.team).Some? ==> r.error == NotYourSlot)
  {
  }

  /** A successful unclaim leaves a valid lineup valid. */
  lemma UnclaimKeepsLineupValid(doc: Document, now: int, args: UnclaimArgs)
    requires Valid(doc) && DecideUnclaim(doc, now, args).Success?
    ensures Valid(doc.(players := DecideUnclaim(doc, now, args).value))
  {
    var t, k := TeamOf(args.team).value, args.index.value;
    var s := Released(doc.players.Roster(t)[k]);
    WriteKeepsOneSlotPerParticipant(doc.players, t, k, s);
    WriteKeepsUnclaimedSlotsBlank(doc.players, t, k, s);
    WriteKeepsNumbering(doc.players, t, k, s);
  }

  /** Unclaim never consults the player count: a slot past it can still be released. */
  lemma UnclaimIgnoresPlayersCount(doc: Document, now: int, args: UnclaimArgs, count: int)
    ensures DecideUnclaim(doc.(playersCount := count), now, args) == DecideUnclaim(doc, now, args)
  {
  }

  /** Writing the same slot twice keeps only the second write. */
  lemma WriteTwice(p: Players, t: Team, k: nat, s1: Slot, s2: Slot)
    requires k < |p.Roster(t)|
    ensures p.With(t, k, s1).With(t, k, s2) == p.With(t, k, s2)
  {
    assert p.Roster(t)[k := s1][k := s2] == p.Roster(t)[k := s2];
  }

  /** Writing a slot with what it already holds changes nothing. */
  lemma WriteSame(p: Players, t: Team, k: nat)
    requires k < |p.Roster(t)|
    ensures p.With(t, k, p.Roster(t)[k]) == p
  {
    assert p.Roster(t)[k := p.Roster(t)[k]] == p.Roster(t);
  }

  /**
   * Claiming a slot and then releasing it, as the same participant while the
   * link is live, blanks the slot again; a slot that was open is back to what
   * `makePlayers` made, and so are the rosters.
   */
  lemma ClaimThenUnclaimReopensSlot(doc: Document, claimedAt: int, releasedAt: int, args: ClaimArgs)
    requires DecideClaim(doc, claimedAt, args).Success?
    requires !IsExpired(doc, releasedAt)
    ensures TeamOf(args.team).Some?
    ensures var p := DecideClaim(doc, claimedAt, args).value;
            var t, k := TeamOf(args.team).value, args.index.value;
            var back := DecideUnclaim(doc.(players := p), releasedAt, UnclaimArgs(args.participantId, args.team, args.index));
            && 0 <= k < |doc.players.Roster(t)|
            && back == Success(doc.players.With(t, k, Slot(doc.players.Roster(t)[k].number, "", None)))
            && (doc.players.Roster(t)[k].IsOpen() ==> back == Success(doc.players))
  {
    var p := DecideClaim(doc, claimedAt, args).value;
    ClaimTarget(doc, claimedAt, args, p);
    var t, k := TeamOf(args.team).value, args.index.value;
    var s := doc.players.Roster(t)[k];
    var held := Claimed(s, args.name, args.participantId);
    var uargs := UnclaimArgs(args.participantId, args.team, args.index);
    assert DecideUnclaim(doc.(players := p), releasedAt, uargs) == Success(p.With(t, k, Released(held))) by {
      assert p.Roster(t)[k] == held;
      assert SlotIndex(args.index, |p.Roster(t)|) == Some(k);
    }
    WriteTwice(doc.players, t, k, held, Released(held));
    if s.IsOpen() {
      assert Released(held) == s;
      WriteSame(doc.players, t, k);
    }
  }


  /**
   * Past its deadline a lineup answers every request with `link_expired`,
   * except a malformed claim or unclaim, which is turned away as `bad_request`
   * before the lineup is even loaded.
   */
  lemma ExpiredLineupAnswersLinkExpired(doc: Document, now: int, claim: ClaimBody, unclaim: UnclaimBody)
    requires IsExpired(doc, now)
    ensures ReadLineup(Some(doc), now) == Failure(LinkExpired)
    ensures ClaimOutcome(Some(doc), now, claim) == if ParseClaim(claim).None? then Failure(BadRequest) else Failure(LinkExpired)
    ensures UnclaimOutcome(Some(doc), now, unclaim) == if ParseUnclaim(unclaim).None? then Failure(BadRequest) else Failure(LinkExpired)
  {
  }
}
