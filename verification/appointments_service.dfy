/** The appointments service: the calls of the tribunal protocol, carried out on stored tables. */
module AppointmentsServices {
  import opened Wrappers
  import opened TribunalProtocol

  class AppointmentsService {
    const profiles: seq<Profile>
    var invitations: seq<Invitation>
    var disclosures: seq<Disclosure>
    var tribunals: map<nat, Tribunal>
    var members: map<(nat, nat), Member>
    var team: map<(nat, nat, CaseRole), bool>
    var challenges: seq<Challenge>
    var trail: seq<Act>

    function Stored(): Tables
      reads this
    {
      Tables(invitations, disclosures, tribunals, members, team, challenges, trail)
    }

    ghost predicate Valid()
      reads this
    {
      Inv(profiles, Stored())
    }

    constructor (profiles: seq<Profile>)
      ensures this.profiles == profiles && Stored() == EMPTY && Valid()
    {
      this.profiles := profiles;
      invitations, disclosures, challenges, trail := [], [], [], [];
      tribunals, members, team := map[], map[], map[];
      new;
      EmptyInv(profiles);
    }

    method CreateInvitation(caseId: nat, arbitratorId: nat, role: TribunalRole, deadlineId: Option<nat>, expiresAt: Option<int>)
      returns (r: Result<nat, ProtocolError>)
      requires Valid()
      modifies this
      ensures Valid()
      ensures Stored() == Step(profiles, old(Stored()), CallInvite(caseId, arbitratorId, role, deadlineId, expiresAt))
      ensures r.Ok? <==> arbitratorId < |profiles| && profiles[arbitratorId].approved
      ensures r.Err? ==> Stored() == old(Stored())
      ensures r.Ok? ==>
        && r.value == |old(invitations)|
        && invitations == old(invitations) + [Invitation(caseId, arbitratorId, role, INVITED, deadlineId, expiresAt)]
    {
      hide Inv;
      StepKeepsInv(profiles, Stored(), CallInvite(caseId, arbitratorId, role, deadlineId, expiresAt));
      if arbitratorId >= |profiles| {
        return Err(NotFound);
      }
      if !profiles[arbitratorId].approved {
        return Err(NotApproved);
      }
      var id := |invitations|;
      invitations := invitations + [Invitation(caseId, arbitratorId, role, INVITED, deadlineId, expiresAt)];
      r := Ok(id);
    }

    method SubmitConflictDisclosure(userId: nat, invitationId: nat) returns (r: Result<(), ProtocolError>)
      requires Valid()
      modifies this
      ensures Valid() && Stored() == Step(profiles, old(Stored()), CallDisclose(userId, invitationId))
      ensures r.Err? ==> Stored() == old(Stored())
      ensures r.Ok? ==> invitationId < |invitations| && invitations[invitationId].status == CONFLICT_CHECK
      ensures UniqueUsers(profiles) ==>
        (r.Ok? <==> AddressedTo(profiles, old(invitations), invitationId, userId)
                    && old(invitations)[invitationId].status != EXPIRED && old(invitations)[invitationId].status != WITHDRAWN)
      ensures r.Ok? ==>
        var was := old(invitations)[invitationId];
        && invitations == old(invitations)[invitationId := was.(status := CONFLICT_CHECK)]
        && disclosures == old(disclosures) + [Disclosure(was.caseId, was.arbitratorId)]
    {
      hide Inv, ProfileOf, AddressedTo, UniqueUsers;
      OwnMeansAddressed(profiles, Stored(), userId, invitationId);
      StepKeepsInv(profiles, Stored(), CallDisclose(userId, invitationId));
      var own := OwnInvitation(profiles, Stored(), userId, invitationId);
      if own.Some? {
        return Err(own.value);
      }
      var invitation := invitations[invitationId];
      if invitation.status == EXPIRED || invitation.status == WITHDRAWN {
        return Err(NoLongerOpen);
      }
      disclosures := disclosures + [Disclosure(invitation.caseId, invitation.arbitratorId)];
      invitations := invitations[invitationId := invitation.(status := CONFLICT_CHECK)];
      trail := trail + [Disclosed(invitation.caseId, invitation.arbitratorId)];
      r := Ok(());
    }

    method Respond(userId: nat, invitationId: nat, accept: bool, feeAccepted: bool, available: bool)
      returns (r: Result<(), ProtocolError>)
      requires Valid()
      modifies this
      ensures Valid()
      ensures Stored() == Step(profiles, old(Stored()), CallRespond(userId, invitationId, accept, feeAccepted, available))
      ensures r.Err? ==> Stored() == old(Stored())
      ensures r.Ok? && accept ==>
        invitationId < |invitations| && Seated(Stored(), invitations[invitationId].caseId, userId)
      ensures r.Ok? && !accept ==> invitationId < |invitations| && invitations[invitationId].status == DECLINED
      ensures UniqueUsers(profiles) ==>
        (r.Ok? <==>
           && AddressedTo(profiles, old(invitations), invitationId, userId)
           && var was := old(invitations)[invitationId];
              && (was.status == INVITED || was.status == CONFLICT_CHECK)
              && (accept ==> feeAccepted && available && Disclosure(was.caseId, was.arbitratorId) in disclosures))
      ensures r.Ok? && !accept ==>
        Stored() == old(Stored()).(
          invitations := old(invitations)[invitationId := old(invitations)[invitationId].(status := DECLINED)])
      ensures r.Ok? && accept ==> Joined(old(Stored()), Stored(), userId, invitationId)
    {
      hide Inv, ProfileOf, AddressedTo, UniqueUsers, Joined;
      OwnMeansAddressed(profiles, Stored(), userId, invitationId);
      if invitationId < |invitations| {
        AcceptanceJoins(Stored(), userId, invitationId);
      }
      StepKeepsInv(profiles, Stored(), CallRespond(userId, invitationId, accept, feeAccepted, available));
      var own := OwnInvitation(profiles, Stored(), userId, invitationId);
      if own.Some? {
        return Err(own.value);
      }
      var invitation := invitations[invitationId];
      if invitation.status == ACCEPTED || invitation.status == DECLINED {
        return Err(AlreadyAnswered);
      }
      if invitation.status == EXPIRED || invitation.status == WITHDRAWN {
        return Err(NoLongerOpen);
      }
      if !accept {
        invitations := invitations[invitationId := invitation.(status := DECLINED)];
        return Ok(());
      }
      if !feeAccepted || !available {
        return Err(TermsNotAccepted);
      }
      if !HasDisclosed(Stored(), invitation.caseId, invitation.arbitratorId) {
        return Err(NoDisclosure);
      }
      var c, role := invitation.caseId, invitation.proposedRole;
      if c in tribunals {
        tribunals := tribunals[c := tribunals[c]];
      } else {
        tribunals := tribunals[c := Tribunal(if role == SOLE then SOLE_ARBITRATOR else THREE_MEMBER, false)];
      }
      members := members[(c, userId) := Member(role, ACTIVE)];
      team := team[(c, userId, CaseRoleFor(role)) := true];
      invitations := invitations[invitationId := invitation.(status := ACCEPTED)];
      trail := trail + [AcceptedSeat(c, userId, invitationId, role)];
      r := Ok(());
    }

    method Constitute(caseId: nat, cleared: bool) returns (r: Result<(), ProtocolError>)
      requires Valid()
      modifies this
      ensures Valid() && Stored() == Step(profiles, old(Stored()), CallConstitute(caseId, cleared))
      ensures r.Ok? <==>
        caseId in old(tribunals) && !ChallengeOpen(old(Stored()), caseId) && cleared && Complete(old(Stored()), caseId)
      ensures r.Ok? ==> Complete(Stored(), caseId) && tribunals[caseId].constituted
      ensures r.Ok? ==>
        if tribunals[caseId].composition == SOLE_ARBITRATOR then OneArbitrator(Stored(), caseId)
        else ThreeArbitrators(Stored(), caseId)
      ensures r == Err(Incomplete) ==>
        && caseId in tribunals
        && if tribunals[caseId].composition == SOLE_ARBITRATOR then !OneArbitrator(Stored(), caseId)
           else !ThreeArbitrators(Stored(), caseId)
    {
      hide Inv, ChallengeOpen, OneArbitrator, ThreeArbitrators;
      if caseId in tribunals {
        CompleteMeans(Stored(), caseId);
      }
      StepKeepsInv(profiles, Stored(), CallConstitute(caseId, cleared));
      if caseId !in tribunals {
        return Err(NoTribunal);
      }
      if ChallengeOpen(Stored(), caseId) {
        return Err(ChallengePending);
      }
      if !cleared {
        return Err(ComplianceHold);
      }
      var active := ActiveSeats(Stored(), caseId);
      if tribunals[caseId].composition == SOLE_ARBITRATOR {
        if !(|active| == 1 && SeatsOf(Stored(), caseId, SOLE) == active) {
          return Err(Incomplete);
        }
      } else {
        var chairs, coArbs := SeatsOf(Stored(), caseId, CHAIR), SeatsOf(Stored(), caseId, CO_ARBITRATOR);
        if |chairs| != 1 || |coArbs| != 2 {
          return Err(Incomplete);
        }
      }
      ghost var before := Stored();
      tribunals := tribunals[caseId := tribunals[caseId].(constituted := true)];
      trail := trail + [Constituted(caseId)];
      SameSeats(before, Stored(), caseId);
      CompleteMeans(Stored(), caseId);
      r := Ok(());
    }

    /** Empties a seat, strips the user's tribunal rows and de-constitutes the tribunal. */
    method VacateMember(caseId: nat, userId: nat, reason: VacancyReason)
      requires (caseId, userId) in members && caseId in tribunals
      modifies this`members, this`team, this`tribunals, this`trail
      ensures Stored() == Vacate(old(Stored()), caseId, userId, reason)
      ensures Left(old(Stored()), Stored(), caseId, userId, reason)
    {
      members := members[(caseId, userId) := members[(caseId, userId)].(status := StatusForVacancy(reason))];
      team := Stripped(team, caseId, userId);
      tribunals := tribunals[caseId := tribunals[caseId].(constituted := false)];
      trail := trail + [Vacated(caseId, userId)];
    }

    method RecordVacancy(caseId: nat, userId: nat, reason: VacancyReason) returns (r: Result<(), ProtocolError>)
      requires Valid()
      modifies this
      ensures Valid() && Stored() == Step(profiles, old(Stored()), CallVacancy(caseId, userId, reason))
      ensures r.Err? ==> Stored() == old(Stored())
      ensures r.Ok? <==> Seated(old(Stored()), caseId, userId)
      ensures r.Ok? ==> !Seated(Stored(), caseId, userId) && caseId in tribunals && !tribunals[caseId].constituted
      ensures r.Ok? ==> !DeliberationAccess(Stored(), caseId, userId)
      ensures r.Ok? ==> Left(old(Stored()), Stored(), caseId, userId, reason)
    {
      hide MatchesTrail, Processed, Left;
      StepKeepsInv(profiles, Stored(), CallVacancy(caseId, userId, reason));
      if (caseId, userId) !in members || caseId !in tribunals {
        return Err(NotFound);
      }
      if members[(caseId, userId)].status != ACTIVE {
        return Err(SeatVacant);
      }
      VacateMember(caseId, userId, reason);
      r := Ok(());
    }

    method RaiseChallenge(caseId: nat, userId: nat) returns (id: nat)
      requires Valid()
      modifies this
      ensures Valid() && Stored() == Step(profiles, old(Stored()), CallChallenge(caseId, userId))
      ensures id == |old(challenges)| && ChallengeOpen(Stored(), caseId)
    {
      hide Inv;
      StepKeepsInv(profiles, Stored(), CallChallenge(caseId, userId));
      id := |challenges|;
      challenges := challenges + [Challenge(caseId, userId, SUBMITTED)];
      assert challenges[id].caseId == caseId;
    }

    method DecideChallenge(challengeId: nat, upheld: bool) returns (r: Result<(), ProtocolError>)
      requires Valid()
      modifies this
      ensures Valid() && Stored() == Step(profiles, old(Stored()), CallDecide(challengeId, upheld))
      ensures r.Err? ==> Stored() == old(Stored())
      ensures r.Ok? <==> challengeId < |old(challenges)| && old(challenges)[challengeId].status == SUBMITTED
      ensures r.Ok? ==>
        var was := old(challenges)[challengeId];
        challenges == old(challenges)[challengeId := was.(status := if upheld then UPHELD else DISMISSED)]
      ensures r.Ok? && !upheld ==> Stored() == old(Stored()).(challenges := challenges)
      ensures r.Ok? && upheld && UniqueUsers(profiles) ==>
        WithdrawnExactly(
          profiles, old(invitations), invitations, challenges[challengeId].caseId, challenges[challengeId].userId)
    {
      hide Inv, ProfileOf, WithdrawnExactly, UniqueUsers, Left;
      if challengeId < |challenges| && UniqueUsers(profiles) {
        WithdrawalsRead(profiles, Stored(), challenges[challengeId].caseId, challenges[challengeId].userId);
      }
      StepKeepsInv(profiles, Stored(), CallDecide(challengeId, upheld));
      if challengeId >= |challenges| {
        return Err(NotFound);
      }
      var challenge := challenges[challengeId];
      if challenge.status != SUBMITTED {
        return Err(AlreadyDecided);
      }
      challenges := challenges[challengeId := challenge.(status := if upheld then UPHELD else DISMISSED)];
      if upheld {
        if Seated(Stored(), challenge.caseId, challenge.userId) && challenge.caseId in tribunals {
          VacateMember(challenge.caseId, challenge.userId, CHALLENGE_UPHELD);
        }
        var profile := ProfileOf(profiles, challenge.userId);
        invitations := Withdrawn(invitations, challenge.caseId, profile);
      }
      r := Ok(());
    }

    /** Collects the open invitations whose response window has passed, then expires them together. */
    method ExpireStaleInvitations(windows: map<nat, Window>, now: int) returns (expired: nat)
      requires Valid()
      modifies this
      ensures Valid() && Stored() == Step(profiles, old(Stored()), CallExpire(windows, now))
      ensures expired == |set i | 0 <= i < |old(invitations)| && Stale(old(invitations)[i], windows, now)|
      ensures ExpiredExactly(old(invitations), invitations, windows, now)
    {
      hide Inv, ExpiredExactly;
      ExpiriesRead(invitations, windows, now);
      StepKeepsInv(profiles, Stored(), CallExpire(windows, now));
      var expiredIds: set<nat> := {};
      for i := 0 to |invitations|
        invariant Stored() == old(Stored())
        invariant expiredIds == set k | 0 <= k < i && Stale(invitations[k], windows, now)
      {
        var c := invitations[i];
        if c.status != INVITED && c.status != CONFLICT_CHECK { continue; }
        var isPast;
        if c.deadlineId.Some? && c.deadlineId.value in windows {
          var d := windows[c.deadlineId.value];
          if d.stopped { continue; }
          isPast := d.dueAt < now;
        } else {
          isPast := c.expiresAt.Some? && c.expiresAt.value < now;
        }
        if isPast {
          expiredIds := expiredIds + {i};
        }
      }
      var before := invitations;
      invitations := seq(|before|, i requires 0 <= i < |before| =>
        if i in expiredIds then before[i].(status := EXPIRED) else before[i]);
      assert invitations == Expired(before, windows, now);
      expired := |expiredIds|;
    }

    /** The parties service's way onto the team: representatives and observers only. */
    method AddTeamMember(caseId: nat, userId: nat, role: CaseRole) returns (r: Result<(), ProtocolError>)
      requires Valid()
      modifies this
      ensures Valid() && Stored() == Step(profiles, old(Stored()), CallAddToTeam(caseId, userId, role))
      ensures r.Err? <==> role !in {CLAIMANT_REPRESENTATIVE, RESPONDENT_REPRESENTATIVE, OBSERVER}
    {
      hide Inv;
      StepKeepsInv(profiles, Stored(), CallAddToTeam(caseId, userId, role));
      if role != CLAIMANT_REPRESENTATIVE && role != RESPONDENT_REPRESENTATIVE && role != OBSERVER {
        return Err(NotARepresentative);
      }
      team := team[(caseId, userId, role) := true];
      r := Ok(());
    }
  }

  /** Invitation i is addressed to the user's profile. */
  predicate AddressedTo(profiles: seq<Profile>, invitations: seq<Invitation>, i: nat, u: nat) {
    i < |invitations| && invitations[i].arbitratorId < |profiles| && profiles[invitations[i].arbitratorId].userId == u
  }

  lemma OwnMeansAddressed(profiles: seq<Profile>, db: Tables, u: nat, i: nat)
    requires Inv(profiles, db)
    ensures UniqueUsers(profiles) ==>
      (OwnInvitation(profiles, db, u, i).None? <==> AddressedTo(profiles, db.invitations, i, u))
  {
    hide MatchesTrail, Constitutions, ProfileOf, DueProcess;
    ProfileFound(profiles, u);
  }

  /** The team row a role opens. */
  predicate OpensRow(role: TribunalRole, row: CaseRole) {
    match role
    case CHAIR | SOLE => row == TRIBUNAL_CHAIR
    case CO_ARBITRATOR => row == TRIBUNAL_MEMBER
    case SECRETARY => row == TRIBUNAL_SECRETARY
  }

  /** The user has the seat and the team row of the role, on the tribunal there was or a new one of the role's kind. */
  ghost predicate Joined(a: Tables, b: Tables, u: nat, i: nat)
    requires i < |a.invitations|
  {
    var inv := a.invitations[i];
    var c := inv.caseId;
    && b.invitations == a.invitations[i := inv.(status := ACCEPTED)]
    && b.members == a.members[(c, u) := Member(inv.proposedRole, ACTIVE)]
    && (forall d: nat, v: nat, row :: OnTeam(b, d, v, row)
          <==> OnTeam(a, d, v, row) || (d == c && v == u && OpensRow(inv.proposedRole, row)))
    && b.tribunals == (if c in a.tribunals then a.tribunals
                       else a.tribunals[c := Tribunal(if inv.proposedRole == SOLE then SOLE_ARBITRATOR else THREE_MEMBER, false)])
    && b.disclosures == a.disclosures && b.challenges == a.challenges
  }

  lemma AcceptanceJoins(db: Tables, u: nat, i: nat)
    requires i < |db.invitations|
    ensures Joined(db, Accept(db, u, i), u, i)
  {
  }

  /** What each reason for a vacancy makes of the member. */
  predicate LeavesAs(reason: VacancyReason, status: MemberStatus) {
    match reason
    case RESIGNATION => status == RESIGNED
    case INCAPACITY => status == INCAPACITATED
    case DEATH => status == DECEASED
    case REMOVAL | CHALLENGE_UPHELD => status == REMOVED
  }

  /** The user's seat and all three kinds of tribunal rows on the case are gone, and the tribunal is no longer constituted. */
  ghost predicate Left(a: Tables, b: Tables, c: nat, u: nat, reason: VacancyReason) {
    && (c, u) in a.members && c in a.tribunals
    && (c, u) in b.members && LeavesAs(reason, b.members[(c, u)].status)
    && b.members == a.members[(c, u) := a.members[(c, u)].(status := b.members[(c, u)].status)]
    && (forall d: nat, v: nat, row :: OnTeam(b, d, v, row)
          <==> && OnTeam(a, d, v, row)
               && !(d == c && v == u && (row == TRIBUNAL_CHAIR || row == TRIBUNAL_MEMBER || row == TRIBUNAL_SECRETARY)))
    && b.tribunals == a.tribunals[c := a.tribunals[c].(constituted := false)]
    && b.invitations == a.invitations && b.disclosures == a.disclosures
  }

  /** The user's invitations on the case that are open or accepted are withdrawn, and no others. */
  predicate WithdrawnExactly(profiles: seq<Profile>, was: seq<Invitation>, after: seq<Invitation>, c: nat, u: nat) {
    && |after| == |was|
    && forall i :: 0 <= i < |was| ==>
         if was[i].caseId == c && AddressedTo(profiles, was, i, u)
            && (was[i].status == INVITED || was[i].status == CONFLICT_CHECK || was[i].status == ACCEPTED)
         then after[i] == was[i].(status := WITHDRAWN) else after[i] == was[i]
  }

  lemma WithdrawalsRead(profiles: seq<Profile>, db: Tables, c: nat, u: nat)
    requires Inv(profiles, db) && UniqueUsers(profiles)
    ensures WithdrawnExactly(profiles, db.invitations, Withdrawn(db.invitations, c, ProfileOf(profiles, u)), c, u)
  {
    hide MatchesTrail, Constitutions, ProfileOf, DueProcess;
    ProfileFound(profiles, u);
  }

  /** Open invitations past their window: that of their deadline unless it is stopped, or their own where there is none. */
  predicate ExpiredExactly(was: seq<Invitation>, after: seq<Invitation>, windows: map<nat, Window>, now: int) {
    && |after| == |was|
    && forall i :: 0 <= i < |was| ==>
         after[i] == if (was[i].status == INVITED || was[i].status == CONFLICT_CHECK) && PastWindow(was[i], windows, now)
                     then was[i].(status := EXPIRED) else was[i]
  }

  predicate PastWindow(inv: Invitation, windows: map<nat, Window>, now: int) {
    match inv.deadlineId
    case Some(d) =>
      if d in windows then !windows[d].stopped && windows[d].dueAt < now else inv.expiresAt.Some? && inv.expiresAt.value < now
    case None => inv.expiresAt.Some? && inv.expiresAt.value < now
  }

  lemma ExpiriesRead(invitations: seq<Invitation>, windows: map<nat, Window>, now: int)
    ensures ExpiredExactly(invitations, Expired(invitations, windows, now), windows, now)
  {
  }
}
