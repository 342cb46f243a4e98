/**
 The tribunal appointment protocol: invitations, conflict disclosures, answers,
 constitution, vacancies and challenges, and the case-team rows that open the
 tribunal's deliberations. Row numbers serve as ids.
 */
module TribunalProtocol {
  import opened Wrappers

  datatype TribunalRole = CHAIR | CO_ARBITRATOR | SOLE | SECRETARY

  datatype CaseRole =
    | CLAIMANT | CLAIMANT_REPRESENTATIVE | RESPONDENT | RESPONDENT_REPRESENTATIVE
    | TRIBUNAL_CHAIR | TRIBUNAL_MEMBER | TRIBUNAL_SECRETARY | CASE_REGISTRAR | OBSERVER

  datatype InvitationStatus = INVITED | CONFLICT_CHECK | ACCEPTED | DECLINED | WITHDRAWN | EXPIRED

  datatype MemberStatus = ACTIVE | RESIGNED | REMOVED | INCAPACITATED | DECEASED

  datatype VacancyReason = RESIGNATION | REMOVAL | INCAPACITY | DEATH | CHALLENGE_UPHELD

  datatype Composition = SOLE_ARBITRATOR | THREE_MEMBER

  datatype ChallengeStatus = SUBMITTED | UPHELD | DISMISSED

  /** An arbitrator profile; its row number is the arbitrator id. */
  datatype Profile = Profile(userId: nat, approved: bool)

  datatype Invitation = Invitation(
    caseId: nat, arbitratorId: nat, proposedRole: TribunalRole, status: InvitationStatus,
    deadlineId: Option<nat>, expiresAt: Option<int>)

  datatype Disclosure = Disclosure(caseId: nat, arbitratorId: nat)

  datatype Tribunal = Tribunal(composition: Composition, constituted: bool)

  datatype Member = Member(role: TribunalRole, status: MemberStatus)

  datatype Challenge = Challenge(caseId: nat, userId: nat, status: ChallengeStatus)

  /** The acts of the audit trail that bear on seats. */
  datatype Act =
    | Disclosed(caseId: nat, arbitratorId: nat)
    | AcceptedSeat(caseId: nat, userId: nat, invitationId: nat, role: TribunalRole)
    | Vacated(caseId: nat, userId: nat)
    | Constituted(caseId: nat)

  /** Members are keyed by case and user, team rows by case, user and case role. */
  datatype Tables = Tables(
    invitations: seq<Invitation>,
    disclosures: seq<Disclosure>,
    tribunals: map<nat, Tribunal>,
    members: map<(nat, nat), Member>,
    team: map<(nat, nat, CaseRole), bool>,
    challenges: seq<Challenge>,
    trail: seq<Act>
  )

  datatype ProtocolError =
    | NotFound | NotApproved | NotAnArbitrator | NoLongerOpen | AlreadyAnswered | TermsNotAccepted | NoDisclosure
    | NoTribunal | ChallengePending | ComplianceHold | Incomplete | SeatVacant | AlreadyDecided | NotARepresentative

  const EMPTY := Tables([], [], map[], map[], map[], [], [])

  // ---- Look-ups ----

  function CaseRoleFor(role: TribunalRole): CaseRole {
    match role
    case CHAIR => TRIBUNAL_CHAIR
    case SOLE => TRIBUNAL_CHAIR
    case SECRETARY => TRIBUNAL_SECRETARY
    case CO_ARBITRATOR => TRIBUNAL_MEMBER
  }

  /** The rows a vacancy switches off, as the appointments service lists them. */
  const SEAT_ROLES := {TRIBUNAL_CHAIR, TRIBUNAL_MEMBER, TRIBUNAL_SECRETARY}

  /** The rows that open deliberations, as the access service lists them. */
  const DELIBERATION_ROLES := {TRIBUNAL_CHAIR, TRIBUNAL_MEMBER}

  function StatusForVacancy(reason: VacancyReason): MemberStatus {
    match reason
    case RESIGNATION => RESIGNED
    case INCAPACITY => INCAPACITATED
    case DEATH => DECEASED
    case REMOVAL => REMOVED
    case CHALLENGE_UPHELD => REMOVED
  }

  predicate OnTeam(db: Tables, c: nat, u: nat, role: CaseRole) {
    (c, u, role) in db.team && db.team[(c, u, role)]
  }

  /** getMembership(...).isTribunal, the test of assertDeliberationAccess. */
  predicate DeliberationAccess(db: Tables, c: nat, u: nat) {
    exists role :: role in DELIBERATION_ROLES && OnTeam(db, c, u, role)
  }

  predicate Seated(db: Tables, c: nat, u: nat) {
    (c, u) in db.members && db.members[(c, u)].status == ACTIVE
  }

  /** The profile of a user; a user has at most one. */
  function ProfileOf(profiles: seq<Profile>, u: nat): Option<nat> {
    if profiles == [] then None
    else if profiles[|profiles| - 1].userId == u then Some(|profiles| - 1)
    else ProfileOf(profiles[..|profiles| - 1], u)
  }

  predicate UniqueUsers(profiles: seq<Profile>) {
    forall p, q :: 0 <= p < q < |profiles| ==> profiles[p].userId != profiles[q].userId
  }

  predicate HasDisclosed(db: Tables, c: nat, p: nat) {
    Disclosure(c, p) in db.disclosures
  }

  /** The active members of a tribunal with a given role. */
  function SeatsOf(db: Tables, c: nat, role: TribunalRole): set<(nat, nat)> {
    set k | k in db.members && k.0 == c && db.members[k].status == ACTIVE && db.members[k].role == role
  }

  function ActiveSeats(db: Tables, c: nat): set<(nat, nat)> {
    set k | k in db.members && k.0 == c && db.members[k].status == ACTIVE
  }

  /** The seats that constitution requires are filled. */
  predicate Complete(db: Tables, c: nat) {
    c in db.tribunals
    && if db.tribunals[c].composition == SOLE_ARBITRATOR
       then |ActiveSeats(db, c)| == 1 && SeatsOf(db, c, SOLE) == ActiveSeats(db, c)
       else |SeatsOf(db, c, CHAIR)| == 1 && |SeatsOf(db, c, CO_ARBITRATOR)| == 2
  }

  predicate ChallengeOpen(db: Tables, c: nat) {
    exists i :: 0 <= i < |db.challenges| && db.challenges[i].caseId == c && db.challenges[i].status == SUBMITTED
  }

  // ---- The calls ----

  function Invite(db: Tables, c: nat, p: nat, role: TribunalRole, deadlineId: Option<nat>, expiresAt: Option<int>): Tables {
    db.(invitations := db.invitations + [Invitation(c, p, role, INVITED, deadlineId, expiresAt)])
  }

  function SetStatus(db: Tables, i: nat, status: InvitationStatus): Tables
    requires i < |db.invitations|
  {
    db.(invitations := db.invitations[i := db.invitations[i].(status := status)])
  }

  function Disclose(db: Tables, i: nat): Tables
    requires i < |db.invitations|
  {
    var c, p := db.invitations[i].caseId, db.invitations[i].arbitratorId;
    SetStatus(db, i, CONFLICT_CHECK)
      .(disclosures := db.disclosures + [Disclosure(c, p)], trail := db.trail + [Disclosed(c, p)])
  }

  /** respond, accepting: fills or re-fills the user's seat and switches on the team row of the role. */
  function Accept(db: Tables, u: nat, i: nat): Tables
    requires i < |db.invitations|
  {
    var c, role := db.invitations[i].caseId, db.invitations[i].proposedRole;
    var tribunal :=
      if c in db.tribunals then db.tribunals[c] else Tribunal(if role == SOLE then SOLE_ARBITRATOR else THREE_MEMBER, false);
    SetStatus(db, i, ACCEPTED)
      .(tribunals := db.tribunals[c := tribunal],
        members := db.members[(c, u) := Member(role, ACTIVE)],
        team := db.team[(c, u, CaseRoleFor(role)) := true],
        trail := db.trail + [AcceptedSeat(c, u, i, role)])
  }

  function Constitute(db: Tables, c: nat): Tables
    requires c in db.tribunals
  {
    db.(tribunals := db.tribunals[c := db.tribunals[c].(constituted := true)], trail := db.trail + [Constituted(c)])
  }

  /** Every tribunal row of the user on the case, switched off. */
  function Stripped(team: map<(nat, nat, CaseRole), bool>, c: nat, u: nat): map<(nat, nat, CaseRole), bool> {
    map k | k in team :: if k.0 == c && k.1 == u && k.2 in SEAT_ROLES then false else team[k]
  }

  function Vacate(db: Tables, c: nat, u: nat, reason: VacancyReason): Tables
    requires (c, u) in db.members && c in db.tribunals
  {
    db.(members := db.members[(c, u) := db.members[(c, u)].(status := StatusForVacancy(reason))],
        team := Stripped(db.team, c, u),
        tribunals := db.tribunals[c := db.tribunals[c].(constituted := false)],
        trail := db.trail + [Vacated(c, u)])
  }

  predicate Withdrawable(inv: Invitation, c: nat, p: nat) {
    inv.caseId == c && inv.arbitratorId == p
    && (inv.status == INVITED || inv.status == CONFLICT_CHECK || inv.status == ACCEPTED)
  }

  function Withdrawn(invitations: seq<Invitation>, c: nat, p: Option<nat>): (r: seq<Invitation>)
    ensures |r| == |invitations|
  {
    seq(|invitations|, i requires 0 <= i < |invitations| =>
      if p.Some? && Withdrawable(invitations[i], c, p.value) then invitations[i].(status := WITHDRAWN) else invitations[i])
  }

  function DecideChallenge(profiles: seq<Profile>, db: Tables, i: nat, upheld: bool): Tables
    requires i < |db.challenges|
  {
    var c, u := db.challenges[i].caseId, db.challenges[i].userId;
    var decided := db.(challenges := db.challenges[i := db.challenges[i].(status := if upheld then UPHELD else DISMISSED)]);
    if !upheld then decided
    else
      var vacated := if Seated(db, c, u) && c in db.tribunals then Vacate(decided, c, u, CHALLENGE_UPHELD) else decided;
      vacated.(invitations := Withdrawn(db.invitations, c, ProfileOf(profiles, u)))
  }

  /** A rules-engine deadline as the expiry sweep sees it: its due moment, and whether it is suspended or waived. */
  datatype Window = Window(dueAt: int, stopped: bool)

  predicate Stale(inv: Invitation, windows: map<nat, Window>, now: int) {
    (inv.status == INVITED || inv.status == CONFLICT_CHECK)
    && if inv.deadlineId.Some? && inv.deadlineId.value in windows
       then var w := windows[inv.deadlineId.value]; !w.stopped && w.dueAt < now
       else inv.expiresAt.Some? && inv.expiresAt.value < now
  }

  function Expired(invitations: seq<Invitation>, windows: map<nat, Window>, now: int): (r: seq<Invitation>)
    ensures |r| == |invitations|
  {
    seq(|invitations|, i requires 0 <= i < |invitations| =>
      if Stale(invitations[i], windows, now) then invitations[i].(status := EXPIRED) else invitations[i])
  }

  // ---- Runs ----

  datatype Call =
    | CallInvite(caseId: nat, arbitratorId: nat, role: TribunalRole, deadlineId: Option<nat>, expiresAt: Option<int>)
    | CallDisclose(userId: nat, invitationId: nat)
    | CallRespond(userId: nat, invitationId: nat, accept: bool, feeAccepted: bool, available: bool)
    | CallConstitute(caseId: nat, cleared: bool)
    | CallVacancy(caseId: nat, userId: nat, reason: VacancyReason)
    | CallChallenge(caseId: nat, userId: nat)
    | CallDecide(challengeId: nat, upheld: bool)
    | CallExpire(windows: map<nat, Window>, now: int)
    | CallAddToTeam(caseId: nat, userId: nat, caseRole: CaseRole)

  /** assertOwnInvitation: the invitation exists and is addressed to the caller's profile. */
  function OwnInvitation(profiles: seq<Profile>, db: Tables, u: nat, i: nat): Option<ProtocolError> {
    if ProfileOf(profiles, u).None? then Some(NotAnArbitrator)
    else if i >= |db.invitations| || db.invitations[i].arbitratorId != ProfileOf(profiles, u).value then Some(NotFound)
    else None
  }

  function Outcome(profiles: seq<Profile>, db: Tables, call: Call): Result<Tables, ProtocolError> {
    match call
    case CallInvite(c, p, role, deadlineId, expiresAt) =>
      if p >= |profiles| then Err(NotFound)
      else if !profiles[p].approved then Err(NotApproved)
      else Ok(Invite(db, c, p, role, deadlineId, expiresAt))
    case CallDisclose(u, i) =>
      var own := OwnInvitation(profiles, db, u, i);
      if own.Some? then Err(own.value)
      else if db.invitations[i].status == EXPIRED || db.invitations[i].status == WITHDRAWN then Err(NoLongerOpen)
      else Ok(Disclose(db, i))
    case CallRespond(u, i, accept, feeAccepted, available) =>
      var own := OwnInvitation(profiles, db, u, i);
      if own.Some? then Err(own.value)
      else if db.invitations[i].status == ACCEPTED || db.invitations[i].status == DECLINED then Err(AlreadyAnswered)
      else if db.invitations[i].status == EXPIRED || db.invitations[i].status == WITHDRAWN then Err(NoLongerOpen)
      else if !accept then Ok(SetStatus(db, i, DECLINED))
      else if !feeAccepted || !available then Err(TermsNotAccepted)
      else if !HasDisclosed(db, db.invitations[i].caseId, db.invitations[i].arbitratorId) then Err(NoDisclosure)
      else Ok(Accept(db, u, i))
    case CallConstitute(c, cleared) =>
      if c !in db.tribunals then Err(NoTribunal)
      else if ChallengeOpen(db, c) then Err(ChallengePending)
      else if !cleared then Err(ComplianceHold)
      else if !Complete(db, c) then Err(Incomplete)
      else Ok(Constitute(db, c))
    case CallVacancy(c, u, reason) =>
      if (c, u) !in db.members || c !in db.tribunals then Err(NotFound)
      else if !Seated(db, c, u) then Err(SeatVacant)
      else Ok(Vacate(db, c, u, reason))
    case CallChallenge(c, u) => Ok(db.(challenges := db.challenges + [Challenge(c, u, SUBMITTED)]))
    case CallDecide(i, upheld) =>
      if i >= |db.challenges| then Err(NotFound)
      else if db.challenges[i].status != SUBMITTED then Err(AlreadyDecided)
      else Ok(DecideChallenge(profiles, db, i, upheld))
    case CallExpire(windows, now) => Ok(db.(invitations := Expired(db.invitations, windows, now)))
    case CallAddToTeam(c, u, role) =>
      if role != CLAIMANT_REPRESENTATIVE && role != RESPONDENT_REPRESENTATIVE && role != OBSERVER then Err(NotARepresentative)
      else Ok(db.(team := db.team[(c, u, role) := true]))
  }

  function Step(profiles: seq<Profile>, db: Tables, call: Call): Tables {
    var out := Outcome(profiles, db, call);
    if out.Ok? then out.value else db
  }

  function Run(profiles: seq<Profile>, db: Tables, calls: seq<Call>): Tables {
    if calls == [] then db else Step(profiles, Run(profiles, db, calls[..|calls| - 1]), calls[|calls| - 1])
  }

  // ---- Reading the trail ----

  /** The case roles a user accepted on a case since last losing the seat there. */
  function RolesSince(trail: seq<Act>, c: nat, u: nat): set<CaseRole> {
    if trail == [] then {}
    else
      var before, last := RolesSince(trail[..|trail| - 1], c, u), trail[|trail| - 1];
      match last
      case AcceptedSeat(d, v, _, role) => if d == c && v == u then before + {CaseRoleFor(role)} else before
      case Vacated(d, v) => if d == c && v == u then {} else before
      case _ => before
  }

  /** Someone accepted a seat on the case after it was last constituted. */
  function AcceptedSinceConstitution(trail: seq<Act>, c: nat): bool {
    if trail == [] then false
    else
      var before, last := AcceptedSinceConstitution(trail[..|trail| - 1], c), trail[|trail| - 1];
      match last
      case AcceptedSeat(d, _, _, _) => before || d == c
      case Constituted(d) => before && d != c
      case _ => before
  }

  /** An acceptance by a user of an invitation of theirs, after a disclosure from their own profile. */
  ghost predicate DueProcess(profiles: seq<Profile>, db: Tables, k: nat)
    requires k < |db.trail| && db.trail[k].AcceptedSeat?
  {
    var a := db.trail[k];
    && a.invitationId < |db.invitations|
    && var inv := db.invitations[a.invitationId];
       && inv.caseId == a.caseId && inv.proposedRole == a.role && inv.arbitratorId < |profiles|
       && profiles[inv.arbitratorId].userId == a.userId
       && exists j :: 0 <= j < k && db.trail[j] == Disclosed(a.caseId, inv.arbitratorId)
  }

  /** Seats and team rows are what the trail says they are. */
  ghost predicate MatchesTrail(db: Tables) {
    && (forall c: nat, u: nat, role :: role in SEAT_ROLES ==> (OnTeam(db, c, u, role) <==> role in RolesSince(db.trail, c, u)))
    && (forall c: nat, u: nat :: Seated(db, c, u) <==> RolesSince(db.trail, c, u) != {})
  }

  ghost predicate Processed(profiles: seq<Profile>, db: Tables) {
    && (forall i :: 0 <= i < |db.invitations| ==> db.invitations[i].arbitratorId < |profiles|)
    && (forall d :: d in db.disclosures ==> Disclosed(d.caseId, d.arbitratorId) in db.trail)
    && (forall k :: 0 <= k < |db.trail| && db.trail[k].AcceptedSeat? ==> DueProcess(profiles, db, k))
  }

  ghost predicate Constitutions(db: Tables) {
    && (forall k :: k in db.members ==> k.0 in db.tribunals)
    && (forall c: nat :: c in db.tribunals && db.tribunals[c].constituted ==>
          Complete(db, c) || AcceptedSinceConstitution(db.trail, c))
  }

  ghost predicate Inv(profiles: seq<Profile>, db: Tables) {
    MatchesTrail(db) && Processed(profiles, db) && Constitutions(db)
  }

  // ---- Seats, team rows and trail ----

  lemma RolesAfter(trail: seq<Act>, act: Act, c: nat, u: nat)
    ensures RolesSince(trail + [act], c, u) ==
      match act
      case AcceptedSeat(d, v, _, role) =>
        RolesSince(trail, c, u) + if d == c && v == u then {CaseRoleFor(role)} else {}
      case Vacated(d, v) => if d == c && v == u then {} else RolesSince(trail, c, u)
      case _ => RolesSince(trail, c, u)
  {
    assert (trail + [act])[..|trail|] == trail;
  }

  lemma {:induction false} RolesAreSeatRoles(trail: seq<Act>, c: nat, u: nat)
    ensures RolesSince(trail, c, u) <= SEAT_ROLES
  {
    if trail != [] {
      RolesAreSeatRoles(trail[..|trail| - 1], c, u);
    }
  }

  lemma AcceptMatches(db: Tables, u: nat, i: nat)
    requires MatchesTrail(db) && i < |db.invitations|
    ensures MatchesTrail(Accept(db, u, i))
  {
    hide RolesSince;
    var db' := Accept(db, u, i);
    var act := AcceptedSeat(db.invitations[i].caseId, u, i, db.invitations[i].proposedRole);
    forall d: nat, v: nat {
      RolesAfter(db.trail, act, d, v);
    }
    forall d: nat, v: nat, role | role in SEAT_ROLES
      ensures OnTeam(db', d, v, role) <==> role in RolesSince(db'.trail, d, v)
    {
      RolesAfter(db.trail, act, d, v);
      assert OnTeam(db, d, v, role) <==> role in RolesSince(db.trail, d, v);
    }
    forall d: nat, v: nat
      ensures Seated(db', d, v) <==> RolesSince(db'.trail, d, v) != {}
    {
      RolesAfter(db.trail, act, d, v);
      assert Seated(db, d, v) <==> RolesSince(db.trail, d, v) != {};
    }
  }

  lemma VacateMatches(db: Tables, c: nat, u: nat, reason: VacancyReason)
    requires MatchesTrail(db) && (c, u) in db.members && c in db.tribunals
    ensures MatchesTrail(Vacate(db, c, u, reason))
  {
    hide RolesSince;
    var db' := Vacate(db, c, u, reason);
    forall d: nat, v: nat, role | role in SEAT_ROLES
      ensures OnTeam(db', d, v, role) <==> role in RolesSince(db'.trail, d, v)
    {
      RolesAfter(db.trail, Vacated(c, u), d, v);
      assert OnTeam(db, d, v, role) <==> role in RolesSince(db.trail, d, v);
    }
    forall d: nat, v: nat
      ensures Seated(db', d, v) <==> RolesSince(db'.trail, d, v) != {}
    {
      RolesAfter(db.trail, Vacated(c, u), d, v);
      assert Seated(db, d, v) <==> RolesSince(db.trail, d, v) != {};
    }
  }

  /** A change that leaves members and tribunal team rows alone, and logs at most an act without seats. */
  lemma OtherMatches(db: Tables, db': Tables)
    requires MatchesTrail(db) && db'.members == db.members
    requires forall c: nat, u: nat, role :: role in SEAT_ROLES ==> (OnTeam(db', c, u, role) <==> OnTeam(db, c, u, role))
    requires db'.trail == db.trail
      || exists act: Act :: (act.Disclosed? || act.Constituted?) && db'.trail == db.trail + [act]
    ensures MatchesTrail(db')
  {
    hide RolesSince;
    if db'.trail != db.trail {
      var act: Act :| (act.Disclosed? || act.Constituted?) && db'.trail == db.trail + [act];
      forall c: nat, u: nat ensures RolesSince(db'.trail, c, u) == RolesSince(db.trail, c, u) {
        RolesAfter(db.trail, act, c, u);
      }
    }
  }

  lemma StepMatches(profiles: seq<Profile>, db: Tables, call: Call)
    requires MatchesTrail(db)
    ensures MatchesTrail(Step(profiles, db, call))
  {
    hide MatchesTrail, Complete, Expired, Withdrawn, ProfileOf, RolesSince;
    if Outcome(profiles, db, call).Ok? {
      match call
      case CallRespond(u, i, accept, _, _) => if accept { AcceptMatches(db, u, i); } else { OtherMatches(db, Step(profiles, db, call)); }
      case CallVacancy(c, u, reason) => VacateMatches(db, c, u, reason);
      case CallDecide(i, upheld) =>
        DecideMatches(profiles, db, i, upheld);
      case CallDisclose(u, i) =>
        var act := Disclosed(db.invitations[i].caseId, db.invitations[i].arbitratorId);
        assert Step(profiles, db, call).trail == db.trail + [act];
        OtherMatches(db, Step(profiles, db, call));
      case CallConstitute(c, cleared) =>
        assert Step(profiles, db, call).trail == db.trail + [Constituted(c)];
        OtherMatches(db, Step(profiles, db, call));
      case CallInvite(_, _, _, _, _) => OtherMatches(db, Step(profiles, db, call));
      case CallChallenge(_, _) => OtherMatches(db, Step(profiles, db, call));
      case CallExpire(_, _) => OtherMatches(db, Step(profiles, db, call));
      case CallAddToTeam(_, _, _) => OtherMatches(db, Step(profiles, db, call));
    }
  }

  lemma DecideMatches(profiles: seq<Profile>, db: Tables, i: nat, upheld: bool)
    requires MatchesTrail(db) && i < |db.challenges|
    ensures MatchesTrail(DecideChallenge(profiles, db, i, upheld))
  {
    hide MatchesTrail, Withdrawn, ProfileOf, RolesSince;
    var c, u := db.challenges[i].caseId, db.challenges[i].userId;
    var decided := db.(challenges := db.challenges[i := db.challenges[i].(status := if upheld then UPHELD else DISMISSED)]);
    OtherMatches(db, decided);
    if upheld {
      var after := DecideChallenge(profiles, db, i, upheld);
      if Seated(db, c, u) && c in db.tribunals {
        VacateMatches(decided, c, u, CHALLENGE_UPHELD);
        OtherMatches(Vacate(decided, c, u, CHALLENGE_UPHELD), after);
      } else {
        OtherMatches(decided, after);
      }
    }
  }

  // ---- Due process ----

  lemma ProfileFound(profiles: seq<Profile>, u: nat)
    ensures ProfileOf(profiles, u).Some? ==>
      ProfileOf(profiles, u).value < |profiles| && profiles[ProfileOf(profiles, u).value].userId == u
    ensures ProfileOf(profiles, u).None? ==> forall p :: 0 <= p < |profiles| ==> profiles[p].userId != u
  {
    if profiles != [] {
      ProfileFound(profiles[..|profiles| - 1], u);
    }
  }

  /** Invitations keep their case, addressee and role; the trail only grows. */
  ghost predicate Grows(db: Tables, db': Tables) {
    && |db.invitations| <= |db'.invitations| && |db.trail| <= |db'.trail| && db'.trail[..|db.trail|] == db.trail
    && forall i :: 0 <= i < |db.invitations| ==>
         && db'.invitations[i].caseId == db.invitations[i].caseId
         && db'.invitations[i].arbitratorId == db.invitations[i].arbitratorId
         && db'.invitations[i].proposedRole == db.invitations[i].proposedRole
         && ((db.invitations[i].status == EXPIRED || db.invitations[i].status == WITHDRAWN) ==>
              db'.invitations[i].status == db.invitations[i].status)
  }

  lemma StepGrows(profiles: seq<Profile>, db: Tables, call: Call)
    ensures Grows(db, Step(profiles, db, call))
  {
    hide Complete, ProfileOf, Stripped;
  }

  lemma DueProcessKept(profiles: seq<Profile>, db: Tables, db': Tables, k: nat)
    requires Grows(db, db') && k < |db.trail| && db.trail[k].AcceptedSeat? && DueProcess(profiles, db, k)
    ensures db'.trail[k] == db.trail[k] && DueProcess(profiles, db', k)
  {
    assert forall j :: 0 <= j < |db.trail| ==> db'.trail[j] == db'.trail[..|db.trail|][j];
  }

  lemma StepProcessed(profiles: seq<Profile>, db: Tables, call: Call)
    requires Processed(profiles, db)
    ensures Processed(profiles, Step(profiles, db, call))
  {
    hide Complete, ProfileOf, Stripped, DueProcess;
    var db' := Step(profiles, db, call);
    StepGrows(profiles, db, call);
    forall d | d in db'.disclosures ensures Disclosed(d.caseId, d.arbitratorId) in db'.trail {
      if d in db.disclosures {
        var j :| 0 <= j < |db.trail| && db.trail[j] == Disclosed(d.caseId, d.arbitratorId);
        assert db'.trail[j] == db'.trail[..|db.trail|][j];
      } else {
        assert db'.trail[|db.trail|] == Disclosed(d.caseId, d.arbitratorId);
      }
    }
    forall k | 0 <= k < |db'.trail| && db'.trail[k].AcceptedSeat? ensures DueProcess(profiles, db', k) {
      if k < |db.trail| {
        assert db'.trail[k] == db'.trail[..|db.trail|][k];
        DueProcessKept(profiles, db, db', k);
      } else {
        AcceptedDuly(profiles, db, call, k);
      }
    }
  }

  lemma AcceptedDuly(profiles: seq<Profile>, db: Tables, call: Call, k: nat)
    requires Processed(profiles, db)
    requires |db.trail| <= k < |Step(profiles, db, call).trail| && Step(profiles, db, call).trail[k].AcceptedSeat?
    ensures DueProcess(profiles, Step(profiles, db, call), k)
  {
    hide Complete, ProfileOf, Stripped, Expired, Withdrawn;
    assert call.CallRespond?;
    var u, i := call.userId, call.invitationId;
    ProfileFound(profiles, u);
    var inv := db.invitations[i];
    assert Disclosure(inv.caseId, inv.arbitratorId) in db.disclosures;
    var j :| 0 <= j < |db.trail| && db.trail[j] == Disclosed(inv.caseId, inv.arbitratorId);
    assert Step(profiles, db, call).trail[j] == db.trail[j];
  }

  // ---- Constitution ----

  lemma AcceptedAfter(trail: seq<Act>, act: Act, c: nat)
    ensures AcceptedSinceConstitution(trail + [act], c) ==
      match act
      case AcceptedSeat(d, _, _, _) => AcceptedSinceConstitution(trail, c) || d == c
      case Constituted(d) => AcceptedSinceConstitution(trail, c) && d != c
      case _ => AcceptedSinceConstitution(trail, c)
  {
    assert (trail + [act])[..|trail|] == trail;
  }

  /** Seats of other cases do not bear on whether a tribunal is complete. */
  lemma SameSeats(db: Tables, db': Tables, c: nat)
    requires c in db.tribunals && c in db'.tribunals && db'.tribunals[c].composition == db.tribunals[c].composition
    requires forall k: (nat, nat) :: k.0 == c ==> (k in db'.members <==> k in db.members)
    requires forall k: (nat, nat) :: k.0 == c && k in db.members ==> db'.members[k] == db.members[k]
    ensures Complete(db', c) <==> Complete(db, c)
  {
    assert ActiveSeats(db', c) == ActiveSeats(db, c);
    forall role ensures SeatsOf(db', c, role) == SeatsOf(db, c, role) {
    }
  }

  lemma VacateConstitutions(db: Tables, c: nat, u: nat, reason: VacancyReason)
    requires Constitutions(db) && (c, u) in db.members && c in db.tribunals
    ensures Constitutions(Vacate(db, c, u, reason))
  {
    hide Complete, AcceptedSinceConstitution;
    var db' := Vacate(db, c, u, reason);
    forall d: nat | d in db'.tribunals && db'.tribunals[d].constituted
      ensures Complete(db', d) || AcceptedSinceConstitution(db'.trail, d)
    {
      AcceptedAfter(db.trail, Vacated(c, u), d);
      SameSeats(db, db', d);
    }
  }

  lemma AcceptConstitutions(db: Tables, u: nat, i: nat)
    requires Constitutions(db) && i < |db.invitations|
    ensures Constitutions(Accept(db, u, i))
  {
    hide Complete, AcceptedSinceConstitution;
    var db' := Accept(db, u, i);
    forall d: nat | d in db'.tribunals && db'.tribunals[d].constituted
      ensures Complete(db', d) || AcceptedSinceConstitution(db'.trail, d)
    {
      AcceptedAfter(db.trail, AcceptedSeat(db.invitations[i].caseId, u, i, db.invitations[i].proposedRole), d);
      if d != db.invitations[i].caseId {
        SameSeats(db, db', d);
      }
    }
  }

  lemma ConstituteConstitutions(db: Tables, c: nat)
    requires Constitutions(db) && Complete(db, c)
    ensures Constitutions(Constitute(db, c))
  {
    hide Complete, AcceptedSinceConstitution;
    assert c in db.tribunals by { CompleteHasTribunal(db, c); }
    var db' := Constitute(db, c);
    forall d: nat | d in db'.tribunals && db'.tribunals[d].constituted
      ensures Complete(db', d) || AcceptedSinceConstitution(db'.trail, d)
    {
      AcceptedAfter(db.trail, Constituted(c), d);
      SameSeats(db, db', d);
    }
  }

  lemma CompleteHasTribunal(db: Tables, c: nat)
    requires Complete(db, c)
    ensures c in db.tribunals
  {
  }

  lemma OtherConstitutions(db: Tables, db': Tables)
    requires Constitutions(db) && db'.members == db.members && db'.tribunals == db.tribunals
    requires db'.trail == db.trail || exists act: Act :: act.Disclosed? && db'.trail == db.trail + [act]
    ensures Constitutions(db')
  {
    hide Complete, AcceptedSinceConstitution;
    forall d: nat | d in db'.tribunals && db'.tribunals[d].constituted
      ensures Complete(db', d) || AcceptedSinceConstitution(db'.trail, d)
    {
      SameSeats(db, db', d);
      if db'.trail != db.trail {
        var act: Act :| act.Disclosed? && db'.trail == db.trail + [act];
        AcceptedAfter(db.trail, act, d);
      }
    }
  }

  lemma StepConstitutions(profiles: seq<Profile>, db: Tables, call: Call)
    requires Constitutions(db)
    ensures Constitutions(Step(profiles, db, call))
  {
    hide Constitutions, Complete, Expired, Withdrawn, ProfileOf, Stripped;
    if Outcome(profiles, db, call).Ok? {
      var db' := Step(profiles, db, call);
      match call
      case CallRespond(u, i, accept, _, _) => if accept { AcceptConstitutions(db, u, i); } else { OtherConstitutions(db, db'); }
      case CallVacancy(c, u, reason) => VacateConstitutions(db, c, u, reason);
      case CallConstitute(c, cleared) => ConstituteConstitutions(db, c);
      case CallDecide(i, upheld) =>
        var c, u := db.challenges[i].caseId, db.challenges[i].userId;
        var decided := db.(challenges := db.challenges[i := db.challenges[i].(status := if upheld then UPHELD else DISMISSED)]);
        OtherConstitutions(db, decided);
        if upheld && Seated(db, c, u) && c in db.tribunals {
          VacateConstitutions(decided, c, u, CHALLENGE_UPHELD);
          OtherConstitutions(Vacate(decided, c, u, CHALLENGE_UPHELD), db');
        } else {
          OtherConstitutions(decided, db');
        }
      case CallDisclose(u, i) =>
        var act := Disclosed(db.invitations[i].caseId, db.invitations[i].arbitratorId);
        assert db'.trail == db.trail + [act];
        OtherConstitutions(db, db');
      case CallInvite(_, _, _, _, _) => OtherConstitutions(db, db');
      case CallChallenge(_, _) => OtherConstitutions(db, db');
      case CallExpire(_, _) => OtherConstitutions(db, db');
      case CallAddToTeam(_, _, _) => OtherConstitutions(db, db');
    }
  }

  // ---- Every run ----

  lemma StepKeepsInv(profiles: seq<Profile>, db: Tables, call: Call)
    requires Inv(profiles, db)
    ensures Inv(profiles, Step(profiles, db, call))
  {
    hide MatchesTrail, Processed, Constitutions, Step;
    StepMatches(profiles, db, call);
    StepProcessed(profiles, db, call);
    StepConstitutions(profiles, db, call);
  }

  lemma {:induction false} RunKeepsInv(profiles: seq<Profile>, db: Tables, calls: seq<Call>)
    requires Inv(profiles, db)
    ensures Inv(profiles, Run(profiles, db, calls))
  {
    hide Inv, Step;
    if calls != [] {
      RunKeepsInv(profiles, db, calls[..|calls| - 1]);
      StepKeepsInv(profiles, Run(profiles, db, calls[..|calls| - 1]), calls[|calls| - 1]);
    }
  }

  lemma EmptyInv(profiles: seq<Profile>)
    ensures Inv(profiles, EMPTY)
  {
  }

  /**
   In every run a user holds an active seat exactly when the trail shows an acceptance since
   the last vacancy, and has deliberation access exactly when one of those acceptances was
   for another role than secretary.
   */
  lemma AccessFollowsTrail(profiles: seq<Profile>, calls: seq<Call>, c: nat, u: nat)
    ensures
      var db := Run(profiles, EMPTY, calls);
      var roles := RolesSince(db.trail, c, u);
      && (Seated(db, c, u) <==> roles != {})
      && (DeliberationAccess(db, c, u) <==> roles * DELIBERATION_ROLES != {})
      && (Seated(db, c, u) <==> exists role :: role in SEAT_ROLES && OnTeam(db, c, u, role))
      && (Seated(db, c, u) && !DeliberationAccess(db, c, u) <==> roles == {TRIBUNAL_SECRETARY})
  {
    EmptyInv(profiles);
    RunKeepsInv(profiles, EMPTY, calls);
    var db := Run(profiles, EMPTY, calls);
    hide Run, RolesSince;
    RolesAreSeatRoles(db.trail, c, u);
    var roles := RolesSince(db.trail, c, u);
    assert forall role :: role in SEAT_ROLES ==> (OnTeam(db, c, u, role) <==> role in roles);
    if role :| role in roles {
      assert OnTeam(db, c, u, role);
    }
    if role :| role in roles * DELIBERATION_ROLES {
      assert OnTeam(db, c, u, role);
    }
    if DeliberationAccess(db, c, u) {
      var role :| role in DELIBERATION_ROLES && OnTeam(db, c, u, role);
      assert role in roles * DELIBERATION_ROLES;
    }
    if roles != {} && roles * DELIBERATION_ROLES == {} {
      assert roles == {TRIBUNAL_SECRETARY};
    }
  }

  lemma {:induction false} LastAcceptance(trail: seq<Act>, c: nat, u: nat, role: CaseRole) returns (k: nat)
    requires role in RolesSince(trail, c, u)
    ensures k < |trail| && trail[k].AcceptedSeat? && trail[k].caseId == c && trail[k].userId == u
    ensures CaseRoleFor(trail[k].role) == role
    ensures forall j :: k < j < |trail| ==> trail[j] != Vacated(c, u)
  {
    var last := trail[|trail| - 1];
    if last.AcceptedSeat? && last.caseId == c && last.userId == u && CaseRoleFor(last.role) == role {
      k := |trail| - 1;
    } else {
      k := LastAcceptance(trail[..|trail| - 1], c, u, role);
    }
  }

  /**
   Access to a case's deliberations implies that the user accepted an invitation to that
   tribunal after disclosing from their own profile on that case, and was not vacated since.
   */
  lemma AccessImpliesDueProcess(profiles: seq<Profile>, calls: seq<Call>, c: nat, u: nat) returns (k: nat)
    requires DeliberationAccess(Run(profiles, EMPTY, calls), c, u)
    ensures
      var db := Run(profiles, EMPTY, calls);
      && k < |db.trail| && db.trail[k].AcceptedSeat? && db.trail[k].caseId == c && db.trail[k].userId == u
      && DueProcess(profiles, db, k)
      && forall j :: k < j < |db.trail| ==> db.trail[j] != Vacated(c, u)
  {
    EmptyInv(profiles);
    RunKeepsInv(profiles, EMPTY, calls);
    var db := Run(profiles, EMPTY, calls);
    hide Run, RolesSince, DueProcess;
    var role :| role in DELIBERATION_ROLES && OnTeam(db, c, u, role);
    k := LastAcceptance(db.trail, c, u, role);
  }

  /** In every run a constituted tribunal is complete, unless someone accepted a seat since it was constituted. */
  lemma ConstitutedIsComplete(profiles: seq<Profile>, calls: seq<Call>, c: nat)
    ensures
      var db := Run(profiles, EMPTY, calls);
      c in db.tribunals && db.tribunals[c].constituted && !AcceptedSinceConstitution(db.trail, c) ==> Complete(db, c)
  {
    EmptyInv(profiles);
    RunKeepsInv(profiles, EMPTY, calls);
  }

  /** The tribunal of case c stays constituted after each of the calls. */
  ghost predicate StaysConstituted(profiles: seq<Profile>, db: Tables, calls: seq<Call>, c: nat) {
    forall n :: 0 <= n <= |calls| ==>
      var now := Run(profiles, db, calls[..n]);
      c in now.tribunals && now.tribunals[c].constituted
  }

  lemma ConstitutedStep(profiles: seq<Profile>, db: Tables, call: Call, c: nat, u: nat)
    requires Seated(db, c, u)
    requires var after := Step(profiles, db, call); c in after.tribunals && after.tribunals[c].constituted
    ensures Seated(Step(profiles, db, call), c, u)
  {
    hide Complete, Expired, Withdrawn, ProfileOf, Stripped;
  }

  /** While a tribunal stays constituted, nobody loses a seat on it. */
  lemma {:induction false} ConstitutedKeepsMembers(profiles: seq<Profile>, db: Tables, calls: seq<Call>, c: nat, u: nat)
    requires StaysConstituted(profiles, db, calls, c) && Seated(db, c, u)
    ensures Seated(Run(profiles, db, calls), c, u)
  {
    hide Step, Seated;
    if calls != [] {
      var init := calls[..|calls| - 1];
      forall n | 0 <= n <= |init| ensures init[..n] == calls[..n] {
      }
      ConstitutedKeepsMembers(profiles, db, init, c, u);
      assert calls[..|calls|] == calls;
      ConstitutedStep(profiles, Run(profiles, db, init), calls[|calls| - 1], c, u);
    }
  }

  /** Invitations keep their terms, and once expired or withdrawn stay so, whatever follows. */
  lemma {:induction false} ClosedInvitationsStay(profiles: seq<Profile>, db: Tables, calls: seq<Call>)
    ensures Grows(db, Run(profiles, db, calls))
  {
    hide Step;
    if calls != [] {
      ClosedInvitationsStay(profiles, db, calls[..|calls| - 1]);
      var mid, end := Run(profiles, db, calls[..|calls| - 1]), Run(profiles, db, calls);
      StepGrows(profiles, mid, calls[|calls| - 1]);
      assert end.trail[..|db.trail|] == end.trail[..|mid.trail|][..|db.trail|];
    }
  }

  predicate Addressed(profiles: seq<Profile>, inv: Invitation, c: nat, u: nat) {
    inv.caseId == c && inv.arbitratorId < |profiles| && profiles[inv.arbitratorId].userId == u
  }

  /** An upheld challenge leaves the challenged user without seat, access or open invitation on the case. */
  lemma UpheldChallengeRemoves(profiles: seq<Profile>, db: Tables, i: nat)
    requires Inv(profiles, db) && UniqueUsers(profiles) && i < |db.challenges|
    ensures
      var db', c, u := DecideChallenge(profiles, db, i, true), db.challenges[i].caseId, db.challenges[i].userId;
      && !Seated(db', c, u) && !DeliberationAccess(db', c, u)
      && (c in db.tribunals && Seated(db, c, u) ==> !db'.tribunals[c].constituted)
      && forall k :: 0 <= k < |db'.invitations| && Addressed(profiles, db'.invitations[k], c, u) ==>
           db'.invitations[k].status in {DECLINED, EXPIRED, WITHDRAWN}
  {
    hide RolesSince, Complete, ProfileOf;
    var db', c, u := DecideChallenge(profiles, db, i, true), db.challenges[i].caseId, db.challenges[i].userId;
    ProfileFound(profiles, u);
    assert Seated(db, c, u) ==> c in db.tribunals;
    if !Seated(db, c, u) {
      forall role | role in DELIBERATION_ROLES ensures !OnTeam(db', c, u, role) {
        assert role in SEAT_ROLES;
        assert OnTeam(db, c, u, role) <==> role in RolesSince(db.trail, c, u);
      }
    }
    forall k | 0 <= k < |db'.invitations| && Addressed(profiles, db'.invitations[k], c, u)
      ensures db'.invitations[k].status in {DECLINED, EXPIRED, WITHDRAWN}
    {
      var p := ProfileOf(profiles, u);
      assert p == Some(db.invitations[k].arbitratorId);
    }
  }

  // ---- Which tribunals are constituted, told user by user ----

  predicate Sits(db: Tables, c: nat, u: nat, role: TribunalRole) {
    (c, u) in db.members && db.members[(c, u)] == Member(role, ACTIVE)
  }

  /** The users with an active seat in that role. */
  ghost predicate OnlySeats(db: Tables, c: nat, role: TribunalRole, users: set<nat>) {
    forall u: nat :: Sits(db, c, u, role) <==> u in users
  }

  /** Exactly one user has an active seat, as sole arbitrator. */
  ghost predicate OneArbitrator(db: Tables, c: nat) {
    && (exists u: nat :: OnlySeats(db, c, SOLE, {u}))
    && forall role :: role != SOLE ==> OnlySeats(db, c, role, {})
  }

  /** One user is the only active chair, and two others are the only active co-arbitrators. */
  ghost predicate ThreeArbitrators(db: Tables, c: nat) {
    && (exists k: nat :: OnlySeats(db, c, CHAIR, {k}))
    && (exists m: nat, n: nat :: m != n && OnlySeats(db, c, CO_ARBITRATOR, {m, n}))
  }

  lemma OneMember<T>(s: set<T>)
    ensures |s| == 1 <==> exists x :: x in s && s == {x}
  {
    if |s| == 1 {
      var x :| x in s;
      assert |s - {x}| == 0;
      assert s == {x};
    }
  }

  lemma TwoMembers<T>(s: set<T>)
    ensures |s| == 2 <==> exists x, y :: x in s && y in s && x != y && s == {x, y}
  {
    if |s| == 2 {
      var x :| x in s;
      var rest := s - {x};
      OneMember(rest);
      var y :| y in rest && rest == {y};
      assert s == {x} + rest;
      assert s == {x, y};
    }
  }

  lemma {:induction false} SameNumber(seats: set<(nat, nat)>, c: nat)
    requires forall s :: s in seats ==> s.0 == c
    ensures |set s | s in seats :: s.1| == |seats|
    decreases |seats|
  {
    var users := set s | s in seats :: s.1;
    if seats != {} {
      var s :| s in seats;
      SameNumber(seats - {s}, c);
      assert (set t | t in seats - {s} :: t.1) == users - {s.1};
      assert s.1 in users;
    }
  }

  /** The users seated in a role, as many as there are seats. */
  lemma SeatUsers(db: Tables, c: nat, role: TribunalRole) returns (users: set<nat>)
    ensures OnlySeats(db, c, role, users) && |users| == |SeatsOf(db, c, role)|
    ensures forall other :: OnlySeats(db, c, role, other) ==> other == users
  {
    var seats := SeatsOf(db, c, role);
    users := set s | s in seats :: s.1;
    SameNumber(seats, c);
    forall u: nat
      ensures Sits(db, c, u, role) <==> u in users
    {
      assert Sits(db, c, u, role) <==> (c, u) in seats;
    }
    forall other | OnlySeats(db, c, role, other)
      ensures other == users
    {
      forall u: nat
        ensures u in other <==> u in users
      {
        assert Sits(db, c, u, role) <==> u in other;
      }
    }
  }

  lemma OneOfRole(db: Tables, c: nat, role: TribunalRole)
    ensures |SeatsOf(db, c, role)| == 1 <==> exists u: nat :: OnlySeats(db, c, role, {u})
  {
    hide OnlySeats, SeatsOf;
    var users := SeatUsers(db, c, role);
    OneMember(users);
  }

  lemma TwoOfRole(db: Tables, c: nat, role: TribunalRole)
    ensures |SeatsOf(db, c, role)| == 2 <==> exists m: nat, n: nat :: m != n && OnlySeats(db, c, role, {m, n})
  {
    hide OnlySeats, SeatsOf;
    var users := SeatUsers(db, c, role);
    TwoMembers(users);
    if m: nat, n: nat :| m != n && OnlySeats(db, c, role, {m, n}) {
      assert users == {m, n} && m in users && n in users;
    }
  }

  lemma OnlySole(db: Tables, c: nat)
    ensures SeatsOf(db, c, SOLE) == ActiveSeats(db, c) <==> forall role :: role != SOLE ==> OnlySeats(db, c, role, {})
  {
    if SeatsOf(db, c, SOLE) == ActiveSeats(db, c) {
      forall role, u: nat | role != SOLE
        ensures !Sits(db, c, u, role)
      {
        assert Sits(db, c, u, role) ==> (c, u) in ActiveSeats(db, c);
      }
    } else {
      assert SeatsOf(db, c, SOLE) <= ActiveSeats(db, c);
      var k :| k in ActiveSeats(db, c) && k !in SeatsOf(db, c, SOLE);
      var role := db.members[k].role;
      assert role != SOLE && k == (c, k.1) && Sits(db, c, k.1, role);
      assert !OnlySeats(db, c, role, {});
    }
  }

  lemma CompleteMeans(db: Tables, c: nat)
    requires c in db.tribunals
    ensures Complete(db, c)
      <==> if db.tribunals[c].composition == SOLE_ARBITRATOR then OneArbitrator(db, c) else ThreeArbitrators(db, c)
  {
    hide SeatsOf, ActiveSeats, OnlySeats;
    OnlySole(db, c);
    OneOfRole(db, c, SOLE);
    OneOfRole(db, c, CHAIR);
    TwoOfRole(db, c, CO_ARBITRATOR);
  }

  /**
   A tribunal is constituted exactly when no challenge on the case is undecided, compliance has cleared it, and its
   seats are filled: by a sole arbitrator alone, or by one chair and two co-arbitrators.
   */
  lemma ConstitutedExactly(profiles: seq<Profile>, db: Tables, c: nat, cleared: bool)
    ensures Outcome(profiles, db, CallConstitute(c, cleared)).Ok?
      <==> && c in db.tribunals && cleared
           && (forall i :: 0 <= i < |db.challenges| && db.challenges[i].caseId == c ==> db.challenges[i].status != SUBMITTED)
           && if db.tribunals[c].composition == SOLE_ARBITRATOR then OneArbitrator(db, c) else ThreeArbitrators(db, c)
  {
    hide Complete, OneArbitrator, ThreeArbitrators;
    if c in db.tribunals {
      CompleteMeans(db, c);
    }
  }

  // ---- Where the promises fall short ----

  /** A secretary's accepted seat does not open deliberations: the access service lists only two of the three roles. */
  lemma SecretaryHasNoAccess()
    ensures
      var profiles := [Profile(7, true)];
      var calls := [CallInvite(0, 0, SECRETARY, None, None), CallDisclose(7, 0), CallRespond(7, 0, true, true, true)];
      var db := Run(profiles, EMPTY, calls);
      Seated(db, 0, 7) && !DeliberationAccess(db, 0, 7)
  {
    var profiles := [Profile(7, true)];
    var a, b, d := CallInvite(0, 0, SECRETARY, None, None), CallDisclose(7, 0), CallRespond(7, 0, true, true, true);
    assert ProfileOf(profiles, 7) == Some(0);
    var db := Run(profiles, EMPTY, [a, b, d]);
    assert [a, b, d][..2] == [a, b] && [a, b][..1] == [a] && [a][..0] == [];
    assert Run(profiles, EMPTY, [a]) == Step(profiles, EMPTY, a);
    assert Run(profiles, EMPTY, [a, b]) == Step(profiles, Run(profiles, EMPTY, [a]), b);
    assert db == Step(profiles, Run(profiles, EMPTY, [a, b]), d);
  }

  /** The role a user fills on a tribunal now, if any. */
  function PresentRole(db: Tables, c: nat, u: nat): Option<TribunalRole> {
    if Seated(db, c, u) then Some(db.members[(c, u)].role) else None
  }

  /** One of the seats a complete tribunal of that composition counts. */
  predicate CountedRole(composition: Composition, role: TribunalRole) {
    if composition == SOLE_ARBITRATOR then true else role == CHAIR || role == CO_ARBITRATOR
  }

  /** Accepting a role leaves the counted seats as they are: none is involved, or the user just confirms the present one. */
  predicate KeepsSeats(composition: Composition, present: Option<TribunalRole>, role: TribunalRole) {
    present == Some(role)
    || (!CountedRole(composition, role) && (present.None? || !CountedRole(composition, present.value)))
  }

  /** The call is an acceptance on case c that goes through. */
  predicate AcceptsOn(profiles: seq<Profile>, db: Tables, call: Call, c: nat) {
    call.CallRespond? && call.accept && Outcome(profiles, db, call).Ok? && db.invitations[call.invitationId].caseId == c
  }

  /** An acceptance on case c that goes through and does not keep the counted seats. */
  predicate UnsettlingAcceptance(profiles: seq<Profile>, db: Tables, call: Call, c: nat)
    requires c in db.tribunals
  {
    AcceptsOn(profiles, db, call, c)
    && !KeepsSeats(
         db.tribunals[c].composition, PresentRole(db, c, call.userId), db.invitations[call.invitationId].proposedRole)
  }

  lemma AddToSet<T>(s: set<T>, x: T)
    ensures |s + {x}| == |s| + (if x in s then 0 else 1)
    ensures |s - {x}| == |s| - (if x in s then 1 else 0)
  {
    if x in s {
      assert s + {x} == s;
    } else {
      assert s - {x} == s;
    }
  }

  /** What an acceptance does to the seats of each role. */
  lemma AcceptedSeats(db: Tables, u: nat, i: nat, role: TribunalRole)
    requires i < |db.invitations|
    ensures var c := db.invitations[i].caseId;
      SeatsOf(Accept(db, u, i), c, role)
      == if role == db.invitations[i].proposedRole then SeatsOf(db, c, role) + {(c, u)} else SeatsOf(db, c, role) - {(c, u)}
    ensures var c := db.invitations[i].caseId;
      (c, u) in SeatsOf(db, c, role) <==> PresentRole(db, c, u) == Some(role)
  {
  }

  lemma AcceptedActives(db: Tables, u: nat, i: nat)
    requires i < |db.invitations|
    ensures var c := db.invitations[i].caseId; ActiveSeats(Accept(db, u, i), c) == ActiveSeats(db, c) + {(c, u)}
    ensures var c := db.invitations[i].caseId; (c, u) in ActiveSeats(db, c) <==> Seated(db, c, u)
  {
  }

  /** Which acceptances a complete tribunal survives. */
  lemma AcceptanceKeepsCompleteness(db: Tables, u: nat, i: nat)
    requires i < |db.invitations| && Complete(db, db.invitations[i].caseId)
    ensures var c := db.invitations[i].caseId;
      Complete(Accept(db, u, i), c)
      <==> KeepsSeats(db.tribunals[c].composition, PresentRole(db, c, u), db.invitations[i].proposedRole)
  {
    var c, role := db.invitations[i].caseId, db.invitations[i].proposedRole;
    var after := Accept(db, u, i);
    if db.tribunals[c].composition == THREE_MEMBER {
      AcceptedSeats(db, u, i, CHAIR);
      AcceptedSeats(db, u, i, CO_ARBITRATOR);
      AddToSet(SeatsOf(db, c, CHAIR), (c, u));
      AddToSet(SeatsOf(db, c, CO_ARBITRATOR), (c, u));
      hide SeatsOf;
    } else {
      AcceptedActives(db, u, i);
      AddToSet(ActiveSeats(db, c), (c, u));
      AcceptedSeats(db, u, i, SOLE);
      SoleSeat(db, c, u, after, role);
    }
  }

  lemma SoleSeat(db: Tables, c: nat, u: nat, after: Tables, role: TribunalRole)
    requires |ActiveSeats(db, c)| == 1 && SeatsOf(db, c, SOLE) == ActiveSeats(db, c)
    requires ActiveSeats(after, c) == ActiveSeats(db, c) + {(c, u)}
    requires SeatsOf(after, c, SOLE) == if role == SOLE then SeatsOf(db, c, SOLE) + {(c, u)} else SeatsOf(db, c, SOLE) - {(c, u)}
    ensures |ActiveSeats(after, c)| == 1 && SeatsOf(after, c, SOLE) == ActiveSeats(after, c)
      <==> PresentRole(db, c, u) == Some(role)
  {
    AddToSet(ActiveSeats(db, c), (c, u));
    assert (c, u) in ActiveSeats(db, c) <==> Seated(db, c, u);
    assert (c, u) in SeatsOf(db, c, SOLE) <==> PresentRole(db, c, u) == Some(SOLE);
  }

  /**
   A constituted, complete tribunal that a call leaves constituted stays complete, unless the call is an
   acceptance on its case that does not keep the seats; and after such an acceptance it is not complete.
   */
  lemma OnlySuchAcceptancesBreakCompleteness(profiles: seq<Profile>, db: Tables, call: Call, c: nat)
    requires c in db.tribunals && Complete(db, c) && db.tribunals[c].constituted
    requires var after := Step(profiles, db, call); c in after.tribunals && after.tribunals[c].constituted
    ensures Complete(Step(profiles, db, call), c) <==> !UnsettlingAcceptance(profiles, db, call, c)
  {
    hide Complete, Expired, Withdrawn, ProfileOf, Stripped, KeepsSeats, PresentRole;
    var after := Step(profiles, db, call);
    if AcceptsOn(profiles, db, call, c) {
      AcceptanceKeepsCompleteness(db, call.userId, call.invitationId);
    } else {
      SameSeats(db, after, c);
    }
  }

  /** Since the last constitution of case c a call was such an acceptance. */
  predicate Unsettled(profiles: seq<Profile>, calls: seq<Call>, c: nat) {
    if calls == [] then false
    else
      var earlier, last := Unsettled(profiles, calls[..|calls| - 1], c), calls[|calls| - 1];
      var before := Run(profiles, EMPTY, calls[..|calls| - 1]);
      if ConstitutesOn(profiles, before, last, c) then false
      else earlier || (c in before.tribunals && UnsettlingAcceptance(profiles, before, last, c))
  }

  predicate ConstitutesOn(profiles: seq<Profile>, db: Tables, call: Call, c: nat) {
    call.CallConstitute? && call.caseId == c && Outcome(profiles, db, call).Ok?
  }

  lemma ConstitutionSteps(profiles: seq<Profile>, db: Tables, call: Call, c: nat)
    requires var after := Step(profiles, db, call); c in after.tribunals && after.tribunals[c].constituted
    ensures ConstitutesOn(profiles, db, call, c) ==> Complete(Step(profiles, db, call), c)
    ensures ConstitutesOn(profiles, db, call, c) || (c in db.tribunals && db.tribunals[c].constituted)
  {
    hide Complete, Expired, Withdrawn, ProfileOf, Stripped;
    if ConstitutesOn(profiles, db, call, c) {
      assert c in db.tribunals by { CompleteHasTribunal(db, c); }
      SameSeats(db, Step(profiles, db, call), c);
    }
  }

  /** In every run a constituted tribunal is complete unless an acceptance since its constitution changed the counted seats. */
  lemma {:induction false} OnlyUnsettledIsIncomplete(profiles: seq<Profile>, calls: seq<Call>, c: nat)
    ensures var db := Run(profiles, EMPTY, calls);
      c in db.tribunals && db.tribunals[c].constituted && !Unsettled(profiles, calls, c) ==> Complete(db, c)
  {
    hide Complete, Outcome, Step, UnsettlingAcceptance;
    if calls != [] {
      OnlyUnsettledIsIncomplete(profiles, calls[..|calls| - 1], c);
      var before, last := Run(profiles, EMPTY, calls[..|calls| - 1]), calls[|calls| - 1];
      var after := Run(profiles, EMPTY, calls);
      if c in after.tribunals && after.tribunals[c].constituted {
        ConstitutionSteps(profiles, before, last, c);
        if c in before.tribunals && before.tribunals[c].constituted && Complete(before, c) {
          OnlySuchAcceptancesBreakCompleteness(profiles, before, last, c);
        }
      }
    }
  }

  const TWO_ARBITRATORS := [Profile(7, true), Profile(8, true)]
  const SEAT_THE_SOLE := [CallInvite(0, 0, SOLE, None, None), CallDisclose(7, 0), CallRespond(7, 0, true, true, true)]
  const INVITE_ANOTHER := [CallInvite(0, 1, SOLE, None, None), CallDisclose(8, 1)]
  const ANOTHER_ACCEPTS := CallRespond(8, 1, true, true, true)

  lemma RunMore(profiles: seq<Profile>, calls: seq<Call>, call: Call)
    ensures Run(profiles, EMPTY, calls + [call]) == Step(profiles, Run(profiles, EMPTY, calls), call)
  {
    hide Step;
    assert (calls + [call])[..|calls|] == calls;
  }

  lemma Profiles()
    ensures ProfileOf(TWO_ARBITRATORS, 7) == Some(0) && ProfileOf(TWO_ARBITRATORS, 8) == Some(1)
  {
    assert TWO_ARBITRATORS[..1] == [Profile(7, true)];
  }

  lemma SoleSeated()
    ensures var db := Run(TWO_ARBITRATORS, EMPTY, SEAT_THE_SOLE);
      && |db.invitations| == 1 && db.disclosures == [Disclosure(0, 0)] && db.challenges == []
      && db.members == map[(0, 7) := Member(SOLE, ACTIVE)] && db.tribunals == map[0 := Tribunal(SOLE_ARBITRATOR, false)]
  {
    Profiles();
    hide ProfileOf, Complete, Run;
    RunNothing(TWO_ARBITRATORS);
    RunMore(TWO_ARBITRATORS, [], SEAT_THE_SOLE[0]);
    RunMore(TWO_ARBITRATORS, [SEAT_THE_SOLE[0]], SEAT_THE_SOLE[1]);
    RunMore(TWO_ARBITRATORS, [SEAT_THE_SOLE[0], SEAT_THE_SOLE[1]], SEAT_THE_SOLE[2]);
    assert [] + [SEAT_THE_SOLE[0]] == [SEAT_THE_SOLE[0]];
    assert [SEAT_THE_SOLE[0]] + [SEAT_THE_SOLE[1]] == [SEAT_THE_SOLE[0], SEAT_THE_SOLE[1]];
    assert [SEAT_THE_SOLE[0], SEAT_THE_SOLE[1]] + [SEAT_THE_SOLE[2]] == SEAT_THE_SOLE;
  }

  lemma RunNothing(profiles: seq<Profile>)
    ensures Run(profiles, EMPTY, []) == EMPTY
  {
  }

  lemma SoleConstituted()
    ensures var db := Run(TWO_ARBITRATORS, EMPTY, SEAT_THE_SOLE + [CallConstitute(0, true)]);
      && |db.invitations| == 1 && db.members == map[(0, 7) := Member(SOLE, ACTIVE)]
      && db.tribunals == map[0 := Tribunal(SOLE_ARBITRATOR, true)] && Complete(db, 0)
  {
    SoleSeated();
    hide ProfileOf, Run;
    RunMore(TWO_ARBITRATORS, SEAT_THE_SOLE, CallConstitute(0, true));
    var db := Run(TWO_ARBITRATORS, EMPTY, SEAT_THE_SOLE);
    assert ActiveSeats(db, 0) == {(0, 7)} && SeatsOf(db, 0, SOLE) == {(0, 7)};
    SameSeats(db, Run(TWO_ARBITRATORS, EMPTY, SEAT_THE_SOLE + [CallConstitute(0, true)]), 0);
  }

  lemma AnotherInvited()
    ensures var db := Run(TWO_ARBITRATORS, EMPTY, SEAT_THE_SOLE + [CallConstitute(0, true)] + INVITE_ANOTHER);
      && |db.invitations| == 2 && db.invitations[1] == Invitation(0, 1, SOLE, CONFLICT_CHECK, None, None)
      && HasDisclosed(db, 0, 1)
      && db.members == map[(0, 7) := Member(SOLE, ACTIVE)]
      && db.tribunals == map[0 := Tribunal(SOLE_ARBITRATOR, true)] && Complete(db, 0)
  {
    SoleConstituted();
    Profiles();
    hide ProfileOf, Run, Complete;
    var start := SEAT_THE_SOLE + [CallConstitute(0, true)];
    RunMore(TWO_ARBITRATORS, start, INVITE_ANOTHER[0]);
    RunMore(TWO_ARBITRATORS, start + [INVITE_ANOTHER[0]], INVITE_ANOTHER[1]);
    assert start + [INVITE_ANOTHER[0]] + [INVITE_ANOTHER[1]] == start + INVITE_ANOTHER;
    var before, after := Run(TWO_ARBITRATORS, EMPTY, start), Run(TWO_ARBITRATORS, EMPTY, start + INVITE_ANOTHER);
    assert Disclosure(0, 1) == after.disclosures[|after.disclosures| - 1];
    SameSeats(before, after, 0);
  }

  /** So a sole-arbitrator tribunal on which a second arbitrator accepts stays constituted with two sole arbitrators. */
  lemma AcceptanceCanBreakCompleteness()
    ensures
      var calls := SEAT_THE_SOLE + [CallConstitute(0, true)] + INVITE_ANOTHER + [ANOTHER_ACCEPTS];
      var db := Run(TWO_ARBITRATORS, EMPTY, calls);
      && 0 in db.tribunals && db.tribunals[0].constituted && !Complete(db, 0)
      && Seated(db, 0, 7) && Seated(db, 0, 8)
  {
    AnotherInvited();
    Profiles();
    hide ProfileOf, Run, Complete;
    var calls := SEAT_THE_SOLE + [CallConstitute(0, true)] + INVITE_ANOTHER;
    RunMore(TWO_ARBITRATORS, calls, ANOTHER_ACCEPTS);
    var db := Run(TWO_ARBITRATORS, EMPTY, calls);
    assert Step(TWO_ARBITRATORS, db, ANOTHER_ACCEPTS) == Accept(db, 8, 1);
    OnlySuchAcceptancesBreakCompleteness(TWO_ARBITRATORS, db, ANOTHER_ACCEPTS, 0);
  }
}
