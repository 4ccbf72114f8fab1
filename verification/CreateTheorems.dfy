/**
 What a create call by itself does, said of the stored rows and of the booking rule alone
 (internal/application/drafts/service.go:39-115 and 284-315).
 */
module CreateTheorems {
  import opened Base
  import opened Availability
  import opened DraftProtocol
  import opened DraftInvariants
  import opened DraftSteps
  import opened DraftCalls
  import opened DraftTheorems
  import opened BookingRule
  import opened BookingRuleTheorems

  /** The connection of the tenant has created draft d with this key. */
  predicate Keyed(drafts: seq<Draft>, actor: Actor, key: string, d: int) {
    && 0 <= d < |drafts| && drafts[d].tenant == actor.tenant && drafts[d].connection == actor.connection
    && drafts[d].request.key == key
  }

  lemma FoundIffKeyed(drafts: seq<Draft>, actor: Actor, key: string)
    requires KeysUnique(drafts)
    ensures FindDraft(drafts, actor, key).None? <==> forall d :: !Keyed(drafts, actor, key, d)
    ensures forall d :: Keyed(drafts, actor, key, d) ==> FindDraft(drafts, actor, key) == Some(d)
  {
    FoundDraft(drafts, actor, key);
    assert FindDraft(drafts, actor, key).Some? ==> Keyed(drafts, actor, key, FindDraft(drafts, actor, key).value);
    forall d | Keyed(drafts, actor, key, d) ensures FindDraft(drafts, actor, key) == Some(d) {
      FindsDraft(drafts, actor, key, d);
    }
  }

  /** With a key that its connection has used, a create call changes nothing: it reuses the draft or is refused. */
  lemma KnownKeyDecides(s: State, actor: Actor, request: Request, check: Result<Check, SlotError>, now: int, d: nat)
    requires KeysUnique(s.drafts) && Keyed(s.drafts, actor, request.key, d)
    ensures CreateAlone(s, actor, request, check, now).drafts == s.drafts
    ensures CreateAlone(s, actor, request, check, now).appointments == s.appointments
    ensures CreateResult(s, actor, request, check, now)
            == if SameBooking(s.drafts[d].request, request) then Created(d, true, 0, false) else Refused(KeyReused)
  {
    FoundIffKeyed(s.drafts, actor, request.key);
    CreateDecides(s, actor, request, check, now);
  }

  /** An active customer of the tenant. */
  predicate CustomerKnown(s: State, actor: Actor, request: Request) {
    && request.customer in s.customers && s.customers[request.customer].tenant == actor.tenant
    && s.customers[request.customer].active
  }

  /** No variant, or an active one of the tenant and the service. */
  predicate VariantKnown(s: State, actor: Actor, request: Request) {
    request.variant.Some? ==>
      && request.variant.value in s.variants && s.variants[request.variant.value].tenant == actor.tenant
      && s.variants[request.variant.value].service == request.service && s.variants[request.variant.value].active
  }

  /** The minutes that the variant adds to the service. */
  function ExtraMinutes(s: State, actor: Actor, request: Request): int
    requires VariantKnown(s, actor, request)
  {
    if request.variant.Some? then s.variants[request.variant.value].durationModifier else 0
  }

  /** What the slot check of the call asks. */
  function SlotAsked(s: State, actor: Actor, request: Request): CheckRequest
    requires VariantKnown(s, actor, request)
  {
    CheckRequest(actor.tenant, request.service, request.branch,
                 if request.specialist.Some? then request.specialist.value else "", request.start,
                 ExtraMinutes(s, actor, request))
  }

  /** The slot check of a call with a known customer and variant, when the service's clock says checkedAt. */
  ghost predicate SlotChecked(s: State, actor: Actor, request: Request, check: Result<Check, SlotError>,
                              checkedAt: int) {
    CustomerKnown(s, actor, request) && VariantKnown(s, actor, request) ==>
      CheckAnswer(Store(s.catalog, s.appointments), SlotAsked(s, actor, request), checkedAt, check)
  }

  lemma ChecksWhatIsAsked(s: State, actor: Actor, request: Request, check: Result<Check, SlotError>, checkedAt: int)
    requires ChecksNow(s, Creation(actor, request, Missing), check, checkedAt)
    ensures SlotChecked(s, actor, request, check, checkedAt)
  {
  }

  /**
   A create call with a new key is refused for the first reason that applies: an unknown customer or variant, what
   the slot check refuses, a missing specialist, a taken slot, or a key of the connection that another tenant has;
   and then it changes nothing. Otherwise it inserts one draft.
   */
  lemma NewKeyDecides(s: State, actor: Actor, request: Request, check: Result<Check, SlotError>, now: int)
    requires KeysUnique(s.drafts) && forall d :: !Keyed(s.drafts, actor, request.key, d)
    ensures var t, r := CreateAlone(s, actor, request, check, now), CreateResult(s, actor, request, check, now);
            && t.appointments == s.appointments && (r.Refused? ==> t.drafts == s.drafts)
            && if !CustomerKnown(s, actor, request) || !VariantKnown(s, actor, request)
               then r == Refused(Rejected(NotFound))
               else if check.Err? then r == Refused(Rejected(check.error))
               else if check.value.service.requiresSpecialist && request.specialist.None?
               then r == Refused(SpecialistRequired)
               else if !check.value.available then r == Refused(SlotTaken)
               else if exists d :: && 0 <= d < |s.drafts| && s.drafts[d].connection == actor.connection
                                   && s.drafts[d].request.key == request.key
               then r == Refused(StoreFailed)
               else && r.Created? && r.draft == |s.drafts| && !r.reused
                    && t.drafts == s.drafts + [Draft(actor.tenant, actor.connection, request,
                                                     request.start + check.value.durationMinutes * 60 * SECOND,
                                                     check.value.durationMinutes, now + s.ttl, Waiting, None)]
  {
    FoundIffKeyed(s.drafts, actor, request.key);
    CreateDecides(s, actor, request, check, now);
  }

  // ---- From the stored rows to the draft ----

  /** The validation of the slot check lets the call pass. */
  ghost predicate SlotAllowed(s: State, req: CheckRequest, now: int) {
    && KnownPlace(s.catalog, req.tenant, req.service, req.branch)
    && s.catalog.services[req.service].durationMinutes + req.extraMinutes > 0 && now <= req.start
    && DayInReach(s.catalog, req.branch, (req.start + s.catalog.branches[req.branch].offset) / (86_400 * SECOND), now)
    && (req.specialist == "" || Employed(s.catalog, req.tenant, req.specialist))
  }

  /** By the booking rule the slot can be had, by whoever is asked for if the service needs someone. */
  ghost predicate SlotToBeHad(s: State, req: CheckRequest, now: int)
    requires req.branch in s.catalog.branches && req.service in s.catalog.services
  {
    var w := CheckWish(s.catalog, req, now);
    if s.catalog.services[req.service].requiresSpecialist
    then exists id :: req.specialist in ["", id] && CanTake(s.catalog, s.appointments, w, id, req.start)
    else BranchCanTake(s.catalog, w, req.start)
  }

  /** An answered check passes exactly if the rule gives the slot. */
  lemma AnsweredByRule(s: State, req: CheckRequest, now: int, c: Check)
    requires CheckAnswer(Store(s.catalog, s.appointments), req, now, Ok(c))
    requires req.branch in s.catalog.branches && req.service in s.catalog.services
    requires CheckWish(s.catalog, req, now).need > 0
    ensures c.service == s.catalog.services[req.service] && (c.available <==> SlotToBeHad(s, req, now))
    ensures c.durationMinutes == c.service.durationMinutes + req.extraMinutes
  {
    var st, w := Store(s.catalog, s.appointments), CheckWish(s.catalog, req, now);
    CheckFollowsRule(st, req, now, c, "");
    if c.service.requiresSpecialist {
      if c.specialists != [] {
        CheckFollowsRule(st, req, now, c, c.specialists[0].id);
      }
      if id :| req.specialist in ["", id] && CanTake(s.catalog, s.appointments, w, id, req.start) {
        CheckFollowsRule(st, req, now, c, id);
      }
    }
  }

  /** A slot check passes if and only if its validation does and the booking rule gives the slot. */
  lemma CheckPassesByRule(s: State, req: CheckRequest, now: int, r: Result<Check, SlotError>)
    requires BuffersValid(s.catalog) && CheckAnswer(Store(s.catalog, s.appointments), req, now, r)
    ensures r.Ok? && r.value.available <==> SlotAllowed(s, req, now) && SlotToBeHad(s, req, now)
    ensures r.Ok? ==> && req.service in s.catalog.services && r.value.service == s.catalog.services[req.service]
                      && r.value.durationMinutes == r.value.service.durationMinutes + req.extraMinutes
  {
    CheckErrors(Store(s.catalog, s.appointments), req, now, r);
    if r.Ok? {
      AnsweredByRule(s, req, now, r.value);
    }
  }

  ghost predicate KeyUnused(s: State, actor: Actor, key: string) {
    forall d :: 0 <= d < |s.drafts| && s.drafts[d].connection == actor.connection ==> s.drafts[d].request.key != key
  }

  lemma CreatedIfPassed(s: State, actor: Actor, request: Request, check: Result<Check, SlotError>, now: int)
    requires KeysUnique(s.drafts) && KeyUnused(s, actor, request.key)
    ensures var t, r := CreateAlone(s, actor, request, check, now), CreateResult(s, actor, request, check, now);
            && (r.Created? <==>
                  && CustomerKnown(s, actor, request) && VariantKnown(s, actor, request) && check.Ok?
                  && check.value.available && (check.value.service.requiresSpecialist ==> request.specialist.Some?))
            && (r.Created? ==>
                  t.drafts == s.drafts + [Draft(actor.tenant, actor.connection, request,
                                                request.start + check.value.durationMinutes * 60 * SECOND,
                                                check.value.durationMinutes, now + s.ttl, Waiting, None)])
  {
    NewKeyDecides(s, actor, request, check, now);
  }

  /** The stored rows allow the booking when the slot is checked. */
  ghost predicate CreateAllowed(s: State, actor: Actor, request: Request, checkedAt: int) {
    && CustomerKnown(s, actor, request) && VariantKnown(s, actor, request)
    && SlotAllowed(s, SlotAsked(s, actor, request), checkedAt)
    && SlotToBeHad(s, SlotAsked(s, actor, request), checkedAt)
    && (s.catalog.services[request.service].requiresSpecialist ==> request.specialist.Some?)
  }

  lemma PassedIfAllowed(s: State, actor: Actor, request: Request, check: Result<Check, SlotError>, checkedAt: int)
    requires BuffersValid(s.catalog) && ChecksNow(s, Creation(actor, request, Missing), check, checkedAt)
    ensures CreateAllowed(s, actor, request, checkedAt)
            <==> && CustomerKnown(s, actor, request) && VariantKnown(s, actor, request) && check.Ok?
                 && check.value.available && (check.value.service.requiresSpecialist ==> request.specialist.Some?)
    ensures CreateAllowed(s, actor, request, checkedAt) ==>
              check.value.durationMinutes
              == s.catalog.services[request.service].durationMinutes + ExtraMinutes(s, actor, request)
  {
    if CustomerKnown(s, actor, request) && VariantKnown(s, actor, request) {
      ChecksWhatIsAsked(s, actor, request, check, checkedAt);
      CheckPassesByRule(s, SlotAsked(s, actor, request), checkedAt, check);
    }
  }

  /**
   A create call with a new key makes a draft if and only if the customer and the variant are known, the service has
   the specialist it needs, and the stored rows allow the booking when the slot is checked. The draft lasts as long
   as the service and the variant say.
   */
  lemma CreateFollowsRule(s: State, actor: Actor, request: Request, check: Result<Check, SlotError>, checkedAt: int,
                          now: int)
    requires KeysUnique(s.drafts) && BuffersValid(s.catalog) && KeyUnused(s, actor, request.key)
    requires ChecksNow(s, Creation(actor, request, Missing), check, checkedAt)
    ensures CreateResult(s, actor, request, check, now).Created? <==> CreateAllowed(s, actor, request, checkedAt)
    ensures CreateAllowed(s, actor, request, checkedAt) ==>
              var minutes := s.catalog.services[request.service].durationMinutes + ExtraMinutes(s, actor, request);
              CreateAlone(s, actor, request, check, now).drafts
              == s.drafts + [Draft(actor.tenant, actor.connection, request, request.start + minutes * 60 * SECOND,
                                   minutes, now + s.ttl, Waiting, None)]
  {
    CreatedIfPassed(s, actor, request, check, now);
    PassedIfAllowed(s, actor, request, check, checkedAt);
  }
}
