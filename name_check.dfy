/**
 * The claim handler's `bad_request` test looks at `!name` before trimming, so a
 * name of white space only passes, is stored trimmed to "" beside a holder,
 * and the slot then looks open to the `slot_taken` test, which trims. This
 * module shows the takeover that allows and proves that the test the handler
 * evidently intends, on the trimmed name, rules it out.
 */
module NameCheck {
  import opened Wrappers
  import opened Text
  import opened Lineups
  import opened Claims
  import opened ClaimLaws

  /** Every held slot shows a name that survives trimming, so `slot_taken` sees it. */
  predicate HeldSlotsNamed(p: Players) {
    var s := p.Slots();
    forall i :: 0 <= i < |s| && s[i].claimedBy.Some? ==> IsTaken(s[i])
  }

  /**
   * As written: on any live lineup, a participant who claims an open slot with a
   * name that is not empty but trims to nothing (white space only) passes the
   * `bad_request` test and succeeds, and the slot is stored as held with an
   * empty name; a second participant then claims the same slot and succeeds
   * too, and the first has lost it without being told. (For instance "p" claims
   * A/0 of a new lineup with the name "   ", then "q" claims A/0 with "Bob".)
   */
  lemma WhitespaceNameLetsSlotBeTakenOver(doc: Document, now: int, t: Team, k: nat, first: ClaimBody, second: ClaimBody)
    requires Valid(doc) && !IsExpired(doc, now)
    requires first.participantId != "" && second.participantId != "" && first.participantId != second.participantId
    requires TeamOf(first.team) == Some(t) && TeamOf(second.team) == Some(t)
    requires k < EffectiveCount(doc) && first.index == Numeric(Whole(k)) && second.index == Numeric(Whole(k))
    requires first.name != "" && Trim(first.name) == "" && second.name != ""
    requires doc.players.Roster(t)[k].IsOpen()
    requires !Holds(doc.players, first.participantId) && !Holds(doc.players, second.participantId)
    ensures k < |doc.players.Roster(t)|
    ensures var held := Slot(k + 1, "", Some(first.participantId));
            && ClaimOutcome(Some(doc), now, first) == Success(doc.players.With(t, k, held))
            && !HeldSlotsNamed(doc.players.With(t, k, held))
    ensures var held := Slot(k + 1, "", Some(first.participantId));
            var taker := Slot(k + 1, Trim(second.name), Some(second.participantId));
            && ClaimOutcome(Some(doc.(players := doc.players.With(t, k, held))), now, second) == Success(doc.players.With(t, k, taker))
            && !Holds(doc.players.With(t, k, taker), first.participantId)
  {
    var args1, args2 := ParseClaim(first).value, ParseClaim(second).value;
    var held := Slot(k + 1, "", Some(first.participantId));
    var p1 := doc.players.With(t, k, held);
    assert DecideClaim(doc, now, args1) == Success(p1) by {
      ClaimSucceedsWhenChecksPass(doc, now, args1, t, k);
    }
    assert !HeldSlotsNamed(p1) by {
      WithSlots(doc.players, t, k, held);
      var o := doc.players.Offset(t, k);
      assert p1.Slots()[o] == held;
      assert !IsTaken(held) by { assert Trim("") == ""; }
    }
    var taker := Slot(k + 1, Trim(second.name), Some(second.participantId));
    var p2 := doc.players.With(t, k, taker);
    assert DecideClaim(doc.(players := p1), now, args2) == Success(p2) by {
      HolderAfterWrite(doc.players, t, k, held, second.participantId);
      assert !IsTaken(p1.Roster(t)[k]) by { assert Trim("") == ""; }
      ClaimSucceedsWhenChecksPass(doc.(players := p1), now, args2, t, k);
      WriteTwice(doc.players, t, k, held, taker);
    }
    assert !Holds(p2, first.participantId) by {
      HolderAfterWrite(doc.players, t, k, taker, first.participantId);
    }
  }

  /** Names the takeover applies to exist: three spaces are not empty, yet trim to nothing. */
  lemma SpacesAreABlankName()
    ensures "   " != "" && Trim("   ") == ""
  {
    var s := "   ";
    assert TrimStart(s[2..]) == "";
    assert TrimStart(s[1..]) == "";
    assert TrimStart(s) == "";
  }

  /** After one slot is written, `pid` holds a slot only if it did before or the write gave it one. */
  lemma HolderAfterWrite(p: Players, t: Team, k: nat, s: Slot, pid: string)
    requires k < |p.Roster(t)| && !Holds(p, pid) && s.claimedBy != Some(pid)
    ensures !Holds(p.With(t, k, s), pid)
  {
    var q := p.With(t, k, s);
    forall u: Team, j | 0 <= j < |q.Roster(u)| ensures q.Roster(u)[j].claimedBy != Some(pid) {
      if u != t || j != k { assert q.Roster(u)[j] == p.Roster(u)[j]; }
    }
  }

  /** The `bad_request` test as intended: a name that trims to nothing counts as missing. */
  function ParseClaimIntended(body: ClaimBody): (r: Option<ClaimArgs>)
    ensures r.None? <==> ParseClaim(body).None? || AllSpace(body.name)
    ensures r.Some? ==> r == ParseClaim(body) && Trim(r.value.name) != ""
  {
    TrimSpec(body.name);
    if Trim(body.name) == "" then None else ParseClaim(body)
  }

  /** The claim handler with the intended `bad_request` test; every later step is unchanged. */
  function ClaimOutcomeIntended(found: Option<Document>, now: int, body: ClaimBody): Result<Players, ErrorCode> {
    match ParseClaimIntended(body)
    case None => Failure(BadRequest)
    case Some(args) =>
      match found
      case None => Failure(NotFound)
      case Some(doc) => DecideClaim(doc, now, args)
  }

  /**
   * With the intended test, a successful claim never touches a held slot: every
   * slot that had a holder keeps it, the lineup stays valid, and held slots
   * keep showing a name.
   */
  lemma IntendedClaimKeepsEveryHolder(doc: Document, now: int, body: ClaimBody)
    requires Valid(doc) && HeldSlotsNamed(doc.players)
    requires ClaimOutcomeIntended(Some(doc), now, body).Success?
    ensures var p := ClaimOutcomeIntended(Some(doc), now, body).value;
            && Valid(doc.(players := p))
            && HeldSlotsNamed(p)
            && |p.Slots()| == |doc.players.Slots()|
            && forall i :: 0 <= i < |p.Slots()| && doc.players.Slots()[i].claimedBy.Some? ==> p.Slots()[i] == doc.players.Slots()[i]
  {
    var args := ParseClaimIntended(body).value;
    var p := DecideClaim(doc, now, args).value;
    ClaimKeepsLineupValid(doc, now, args);
    ClaimTarget(doc, now, args, p);
    var t, k := TeamOf(args.team).value, args.index.value;
    var s := Claimed(doc.players.Roster(t)[k], args.name, args.participantId);
    assert IsTaken(s) by { TrimIdempotent(args.name); }
    WriteKeepsHeldSlotsNamed(doc.players, t, k, s);
    WriteOnFreeSlotKeepsHolders(doc.players, t, k, s);
  }

  /** Writing a slot keeps held slots named when the slot written is blank or named. */
  lemma WriteKeepsHeldSlotsNamed(p: Players, t: Team, k: nat, s: Slot)
    requires k < |p.Roster(t)| && HeldSlotsNamed(p)
    requires s.claimedBy.Some? ==> IsTaken(s)
    ensures HeldSlotsNamed(p.With(t, k, s))
  {
    WithSlots(p, t, k, s);
  }

  /** Under the intended invariant, a slot that is not taken has no holder, so writing it
      leaves every held slot as it was. */
  lemma WriteOnFreeSlotKeepsHolders(p: Players, t: Team, k: nat, s: Slot)
    requires k < |p.Roster(t)| && HeldSlotsNamed(p) && !IsTaken(p.Roster(t)[k])
    ensures |p.With(t, k, s).Slots()| == |p.Slots()|
    ensures forall i :: 0 <= i < |p.Slots()| && p.Slots()[i].claimedBy.Some? ==> p.With(t, k, s).Slots()[i] == p.Slots()[i]
  {
    var o := p.Offset(t, k);
    WithSlots(p, t, k, s);
    assert p.Slots()[o] == p.Roster(t)[k];
  }

  /** An unclaim blanks the slot and clears its holder, so held slots keep showing a name. */
  lemma UnclaimKeepsHeldSlotsNamed(doc: Document, now: int, args: UnclaimArgs)
    requires HeldSlotsNamed(doc.players) && DecideUnclaim(doc, now, args).Success?
    ensures HeldSlotsNamed(DecideUnclaim(doc, now, args).value)
  {
    var t, k := TeamOf(args.team).value, args.index.value;
    WithSlots(doc.players, t, k, Released(doc.players.Roster(t)[k]));
  }

  /** A new lineup has no holder, so it meets the intended invariant from the start. */
  lemma NewLineupHeldSlotsNamed(payload: CreatePayload, now: int)
    ensures HeldSlotsNamed(NewLineup(payload, now).players)
  {
    var p := NewLineup(payload, now).players;
    forall i | 0 <= i < |p.Slots()| ensures p.Slots()[i].claimedBy == None {
      if i < |p.a| { assert p.Slots()[i] == p.Roster(A)[i]; }
      else { assert p.Slots()[i] == p.Roster(B)[i - |p.a|]; }
    }
  }
}
