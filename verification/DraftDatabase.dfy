/**
 The draft and appointment tables as one object that calls change in place
 (internal/repository/postgres/drafts.go:54-212, docs/handoff/sql/booknow_mcp_service_phase6_drafts.sql:44-164,
 internal/application/drafts/service.go:39-158).
 */
module DraftDatabase {
  import opened Base
  import opened Tables
  import opened Availability
  import opened DraftProtocol
  import opened DraftInvariants
  import opened DraftCalls
  import opened Occupancy
  import opened DraftService

  // The tables as other transactions leave them between two calls of the service to its store.
  datatype Interlude = Interlude(drafts: seq<Draft>, appointments: seq<Appointment>, managers: set<(string, string)>)

  class Database {
    var drafts: seq<Draft>
    var appointments: seq<Appointment>
    var managers: set<(string, string)>
    const catalog: Catalog
    const customers: map<string, Customer>
    const variants: map<string, Variant>

    constructor (catalog: Catalog, customers: map<string, Customer>, variants: map<string, Variant>,
                 managers: set<(string, string)>)
      ensures this.catalog == catalog && this.customers == customers && this.variants == variants
      ensures this.managers == managers && drafts == [] && appointments == []
    {
      this.catalog, this.customers, this.variants, this.managers := catalog, customers, variants, managers;
      drafts, appointments := [], [];
    }

    function Contents(): Interlude
      reads this
    {
      Interlude(drafts, appointments, managers)
    }

    /** The state of the protocol with these tables, in which nothing is under way. */
    function With(now: int, ttl: int, tables: Interlude): State {
      var n := |tables.appointments|;
      State(now, ttl, catalog, customers, variants, tables.managers, tables.drafts, tables.appointments,
            seq(n, k requires 0 <= k < n => 0), 1, [], [])
    }

    /** confirm_mcp_appointment_draft in a transaction that began at now. */
    method ConfirmDraft(draft: nat, user: string, now: int) returns (r: Result<(nat, bool), ConfirmError>)
      modifies this`drafts, this`appointments
      ensures r == ConfirmResult(With(now, 0, old(Contents())), draft, user)
      ensures drafts == ConfirmAlone(With(now, 0, old(Contents())), draft, user).drafts
      ensures appointments == ConfirmAlone(With(now, 0, old(Contents())), draft, user).appointments
    {
      ConfirmDecides(With(now, 0, Contents()), draft, user);
      if draft >= |drafts| {
        return Err(DraftNotFound);
      }
      var row := drafts[draft];
      if (row.tenant, user) !in managers {
        return Err(Unauthorized);
      }
      var booked, idempotent := 0, false;
      if row.status == Booked && row.appointment.Some? {
        booked, idempotent := row.appointment.value, true;
      } else {
        if row.status != Waiting {
          return Err(InvalidDraftStatus);
        }
        if row.expiresAt < now {
          return Err(DraftExpired);
        }
        if row.request.specialist.Some? {
          TakenIsSharedInstant(appointments, row);
          if Taken(appointments, row) {
            return Err(SpecialistUnavailable);
          }
        }
        booked := |appointments|;
        appointments := appointments + [AppointmentOf(row)];
        drafts := drafts[draft := row.(status := Booked, appointment := Some(booked))];
      }
      return Ok((booked, idempotent));
    }

    /** Inserts a draft unless its connection already used the key. */
    method InsertDraft(d: Draft) returns (id: Option<nat>)
      modifies this`drafts
      ensures id.None? <==> exists k :: && 0 <= k < old(|drafts|) && old(drafts)[k].connection == d.connection
                                        && old(drafts)[k].request.key == d.request.key
      ensures id == if old(KeyUsed(drafts, d.connection, d.request.key)) then None else Some(old(|drafts|))
      ensures drafts == if id.None? then old(drafts) else old(drafts) + [d]
      ensures old(KeysUnique(drafts)) ==> KeysUnique(drafts)
    {
      if KeyUsed(drafts, d.connection, d.request.key) {
        return None;
      }
      drafts := drafts + [d];
      return Some(|drafts| - 1);
    }

    /**
     create_appointment_draft: look up the key, validate, insert, and look up again if the key was taken. The
     service's clock says checkedAt at the slot check and insertedAt at the insert.
     */
    method Create(actor: Actor, request: Request, checkedAt: int, insertedAt: int, ttl: int)
      returns (r: CreateProgress, ghost check: Result<Check, SlotError>)
      modifies this`drafts
      ensures var s := With(0, ttl, old(Contents()));
              && (FindDraft(s.drafts, actor, request.key).None? ==>
                    ChecksNow(s, Creation(actor, request, Missing), check, checkedAt))
              && r == CreateResult(s, actor, request, check, insertedAt)
              && drafts == CreateAlone(s, actor, request, check, insertedAt).drafts
    {
      var s, c := With(0, ttl, Contents()), Creation(actor, request, Missing);
      check := Err(NotFound);
      var existing := FindDraft(drafts, actor, request.key);
      if existing.Some? {
        CreateDecides(s, actor, request, check, insertedAt);
        r := Reuse(drafts, existing, request);
        return;
      }
      if !KnownCustomer(s, c) {
        CreateDecides(s, actor, request, check, insertedAt);
        r := Refused(Rejected(NotFound));
        return;
      }
      var extra := VariantMinutes(s, c);
      if extra.Err? {
        CreateDecides(s, actor, request, check, insertedAt);
        r := Refused(Rejected(extra.error));
        return;
      }
      var answer := CheckSlot(Store(catalog, appointments), SlotRequest(c, extra.value), checkedAt);
      check := answer;
      CreateDecides(s, actor, request, check, insertedAt);
      if answer.Err? {
        r := Refused(Rejected(answer.error));
        return;
      }
      if answer.value.service.requiresSpecialist && request.specialist.None? {
        r := Refused(SpecialistRequired);
        return;
      }
      if !answer.value.available {
        r := Refused(SlotTaken);
        return;
      }
      var id := InsertDraft(DraftOf(s, c, answer.value.durationMinutes, insertedAt));
      if id.None? {
        r := Reuse(drafts, FindDraft(drafts, actor, request.key), request);
      } else {
        r := Created(id.value, false, s.changes, answer.value.service.requiresSpecialist);
      }
    }

    /**
     confirm_appointment_draft: the service reads the draft when its clock says now; if it lets the call through,
     other transactions run, and then the function in a transaction that begins at began.
     */
    method Confirm(actor: Actor, user: string, draft: nat, key: string, now: int, others: Interlude, began: int)
      returns (r: Result<(nat, bool), ServiceError>)
      modifies this
      ensures var s, u := With(now, 0, old(Contents())), With(began, 0, others);
              && r == ServiceResult(s, now, u, actor, user, draft, key)
              && if Screening(s, actor, draft, key, now).Some? then Contents() == old(Contents())
                 else && drafts == ConfirmAlone(u, draft, user).drafts
                      && appointments == ConfirmAlone(u, draft, user).appointments
                      && managers == others.managers
    {
      if draft >= |drafts| || drafts[draft].tenant != actor.tenant {
        return Err(NoSuchDraft);
      }
      var d := drafts[draft];
      if d.connection != actor.connection || d.request.key != key {
        return Err(NoSuchDraft);
      }
      if d.status == Waiting && now >= d.expiresAt {
        return Err(Expired);
      }
      if d.status == Closed {
        return Err(NotPending);
      }
      drafts, appointments, managers := others.drafts, others.appointments, others.managers;
      var confirmed := ConfirmDraft(draft, user, began);
      if confirmed.Err? {
        return Err(Mapped(confirmed.error));
      }
      return Ok(confirmed.value);
    }
  }
}
