/**
 * The loaded lineup as the claim and unclaim handlers change it: the two
 * rosters are arrays of slots, and a successful request overwrites one
 * element in place before the rosters are handed to `updatePlayers`.
 */
module Sheets {
  import opened Wrappers
  import opened Text
  import opened Lineups
  import opened Claims

  /** `roster.some(p => p.claimedBy === participantId)`, visiting the slots in order. */
  method HeldIn(roster: array<Slot>, pid: string) returns (found: bool)
    ensures found <==> exists i :: 0 <= i < roster.Length && roster[i].claimedBy == Some(pid)
    ensures found == AnyClaimedBy(roster[..], pid)
  {
    found := false;
    var i := 0;
    while i < roster.Length && !found
      invariant 0 <= i <= roster.Length
      invariant found ==> 0 < i && roster[i - 1].claimedBy == Some(pid)
      invariant !found ==> forall j :: 0 <= j < i ==> roster[j].claimedBy != Some(pid)
    {
      found := roster[i].claimedBy == Some(pid);
      i := i + 1;
    }
    AnyClaimedBySpec(roster[..], pid);
    if found {
      assert roster[..][i - 1].claimedBy == Some(pid);
    }
  }

  /** A document loaded for one claim or unclaim: its fields as read, and its rosters as arrays. */
  class LineupSheet {
    const doc: Document
    const a: array<Slot>
    const b: array<Slot>

    /** `doc.players` as it is now. */
    function Players(): Players
      reads this, a, b
    {
      Lineups.Players(a[..], b[..])
    }

    /** The document as it is now. */
    function Snapshot(): Document
      reads this, a, b
    {
      doc.(players := Players())
    }

    /** `doc.players[t]` */
    function Roster(t: Team): array<Slot>
      reads this
    {
      match t
      case A => a
      case B => b
    }

    /** Takes what `loadLineup` returned; the rosters get arrays of their own. */
    constructor Load(d: Document)
      ensures Snapshot() == d
      ensures fresh(a) && fresh(b) && a != b
    {
      doc := d;
      a := new Slot[|d.players.a|](i requires 0 <= i < |d.players.a| => d.players.a[i]);
      b := new Slot[|d.players.b|](i requires 0 <= i < |d.players.b| => d.players.b[i]);
      new;
      assert a[..] == d.players.a;
      assert b[..] == d.players.b;
    }

    /**
     * The claim handler from the expiry test on: answers the first failing
     * check, or writes the trimmed name and the caller into
     * `players[team][index]` and answers `None`.
     */
    method Claim(now: int, args: ClaimArgs) returns (err: Option<ErrorCode>)
      requires a != b
      modifies a, b
      ensures var d := DecideClaim(old(Snapshot()), now, args);
              && (err == None <==> d.Success?)
              && (d.Failure? ==> err == Some(d.error))
              && Players() == if d.Success? then d.value else old(Players())
    {
      if doc.expiresAt < now {
        return Some(LinkExpired);
      }
      var count := if doc.playersCount == 0 then DefaultPlayersCount else doc.playersCount;
      var i := match args.index
        case Whole(v) => v
        case Fractional(f) => f;
      if i < 0 || i >= count {
        return Some(OutOfRange);
      }
      var inA := HeldIn(a, args.participantId);
      var inB := HeldIn(b, args.participantId);
      if inA || inB {
        return Some(AlreadyUsed);
      }
      var team := TeamOf(args.team);
      if team.None? {
        return Some(DbError);
      }
      var t := team.value;
      var roster := Roster(t);
      if !(args.index.Whole? && 0 <= args.index.value < roster.Length) {
        return Some(DbError);
      }
      var k := args.index.value;
      if Trim(roster[k].name) != "" {
        return Some(SlotTaken);
      }
      ghost var before := Players();
      roster[k] := Slot(roster[k].number, Trim(args.name), Some(args.participantId));
      assert Players().Roster(t) == before.Roster(t)[k := roster[k]];
      err := None;
    }

    /**
     * The unclaim handler from the expiry test on: answers the first failing
     * check, or blanks `players[team][index]` and answers `None`.
     */
    method Unclaim(now: int, args: UnclaimArgs) returns (err: Option<ErrorCode>)
      requires a != b
      modifies a, b
      ensures var d := DecideUnclaim(old(Snapshot()), now, args);
              && (err == None <==> d.Success?)
              && (d.Failure? ==> err == Some(d.error))
              && Players() == if d.Success? then d.value else old(Players())
    {
      if doc.expiresAt < now {
        return Some(LinkExpired);
      }
      var team := TeamOf(args.team);
      if team.None? {
        return Some(DbError);
      }
      var t := team.value;
      var roster := Roster(t);
      if !(args.index.Whole? && 0 <= args.index.value < roster.Length) {
        return Some(NotYourSlot);
      }
      var k := args.index.value;
      if roster[k].claimedBy != Some(args.participantId) {
        return Some(NotYourSlot);
      }
      ghost var before := Players();
      roster[k] := Slot(roster[k].number, "", None);
      assert Players().Roster(t) == before.Roster(t)[k := roster[k]];
      err := None;
    }
  }
}
