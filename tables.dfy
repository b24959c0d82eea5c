/**
  The three tables behind the registration ledger (`users`, `events`,
  `event_registrations`) as sequences of rows, the queries the route handlers
  run against them, and the invariants a sequential run of the handlers keeps.
 */
module Tables {
  import opened Wrappers

  /** A row of `users`; `passwordHash` is the stored bcrypt digest, `role` is kept as sent. */
  datatype User = User(id: nat, name: string, email: string, passwordHash: string, role: string)

  /** A row of `events`. `maxSeats` of zero (or less) means unlimited; `registrationFee` is in rupees. */
  datatype Event = Event(
    id: nat,
    organizerId: nat,
    name: string,
    eventDate: string,
    venue: string,
    description: string,
    maxSeats: int,
    thumbnail: Option<string>,
    registrationFee: int)

  /** A row of `event_registrations`; `verified` is the attendance flag, false when inserted. */
  datatype Registration = Registration(
    id: nat,
    eventId: nat,
    userId: nat,
    studentName: string,
    registerNo: string,
    department: string,
    regCode: string,
    paymentId: string,
    verified: bool)

  // ------------------------------------------------------------------
  // Users
  // ------------------------------------------------------------------

  /** Some row of `users` carries this e-mail address. */
  predicate EmailTaken(users: seq<User>, email: string)
  {
    exists i :: 0 <= i < |users| && users[i].email == email
  }

  /** `SELECT * FROM users WHERE email=?`, first row. */
  function FindByEmail(users: seq<User>, email: string): (r: Option<User>)
    ensures r.Some? ==> r.value in users && r.value.email == email
    ensures r.None? <==> !EmailTaken(users, email)
  {
    if users == [] then None
    else if users[0].email == email then Some(users[0])
    else
      var rest := FindByEmail(users[1..], email);
      assert forall i :: 0 < i < |users| ==> users[i] == users[1..][i - 1];
      rest
  }

  /** The unique-e-mail constraint on `users`: no two rows share an address. */
  ghost predicate UniqueEmails(users: seq<User>)
  {
    forall i, j | 0 <= i < j < |users| :: users[i].email != users[j].email
  }

  // ------------------------------------------------------------------
  // Events
  // ------------------------------------------------------------------

  /** The event row with this id, as the seat query's `WHERE e.id = ?` finds it. */
  function FindEvent(events: seq<Event>, id: nat): (r: Option<Event>)
    ensures r.Some? ==> r.value in events && r.value.id == id
    ensures r.None? <==> forall e | e in events :: e.id != id
  {
    if events == [] then None
    else if events[0].id == id then Some(events[0])
    else
      var rest := FindEvent(events[1..], id);
      assert forall e | e in events :: e == events[0] || e in events[1..];
      rest
  }

  /** `SELECT * FROM events WHERE organizer_id=?`, in table order. */
  function OwnedBy(events: seq<Event>, owner: nat): (r: seq<Event>)
    ensures forall e :: e in r <==> e in events && e.organizerId == owner
    ensures forall e :: multiset(r)[e] == if e.organizerId == owner then multiset(events)[e] else 0
    ensures |r| <= |events|
  {
    if events == [] then []
    else
      var rest := OwnedBy(events[1..], owner);
      assert forall e | e in events :: e == events[0] || e in events[1..];
      assert events == [events[0]] + events[1..];
      if events[0].organizerId == owner then [events[0]] + rest else rest
  }

  /** The rows matched by `DELETE FROM events WHERE id=? AND organizer_id=?`. */
  predicate DeleteMatches(e: Event, id: nat, owner: nat)
  {
    e.id == id && e.organizerId == owner
  }

  /** The table left after `DELETE FROM events WHERE id=? AND organizer_id=?`. */
  function DeleteOwned(events: seq<Event>, id: nat, owner: nat): (r: seq<Event>)
    ensures forall e :: e in r <==> e in events && !DeleteMatches(e, id, owner)
    ensures forall e :: multiset(r)[e] == if DeleteMatches(e, id, owner) then 0 else multiset(events)[e]
    ensures |r| <= |events|
  {
    if events == [] then []
    else
      var rest := DeleteOwned(events[1..], id, owner);
      assert forall e | e in events :: e == events[0] || e in events[1..];
      assert events == [events[0]] + events[1..];
      if DeleteMatches(events[0], id, owner) then rest else [events[0]] + rest
  }

  /** No two event rows share an id (the auto-increment primary key). */
  ghost predicate UniqueEventIds(events: seq<Event>)
  {
    forall i, j | 0 <= i < j < |events| :: events[i].id != events[j].id
  }

  // ------------------------------------------------------------------
  // Registrations
  // ------------------------------------------------------------------

  /** `SELECT id FROM event_registrations WHERE event_id=? AND user_id=?` is non-empty. */
  predicate IsRegistered(regs: seq<Registration>, eventId: nat, userId: nat)
    ensures IsRegistered(regs, eventId, userId) ==> UsedSeats(regs, eventId) > 0
  {
    exists i :: 0 <= i < |regs| && regs[i].eventId == eventId && regs[i].userId == userId
  }

  /** `COUNT(r.id)` of the seat query: the registrations held for one event. */
  function UsedSeats(regs: seq<Registration>, eventId: nat): (n: nat)
    ensures n <= |regs|
    ensures n == 0 <==> forall i | 0 <= i < |regs| :: regs[i].eventId != eventId
  {
    if regs == [] then 0
    else
      var rest := UsedSeats(regs[1..], eventId);
      assert forall i | 0 < i < |regs| :: regs[i] == regs[1..][i - 1];
      (if regs[0].eventId == eventId then 1 else 0) + rest
  }

  /**
    The capacity guard of both payment routes: a positive `max_seats` is a cap
    that `usedSeats` has reached; zero (or less) never rejects.
   */
  predicate IsFull(maxSeats: int, usedSeats: nat)
    ensures maxSeats <= 0 ==> !IsFull(maxSeats, usedSeats)
    ensures !IsFull(maxSeats, usedSeats) && maxSeats > 0 ==> usedSeats + 1 <= maxSeats
  {
    maxSeats > 0 && usedSeats >= maxSeats
  }

  /** The registration codes present in the table. */
  function Codes(regs: seq<Registration>): set<string>
  {
    set r | r in regs :: r.regCode
  }

  /** `UPDATE event_registrations SET verified=1 WHERE reg_code=?`. */
  function MarkVerified(regs: seq<Registration>, code: string): (r: seq<Registration>)
    ensures |r| == |regs|
    ensures forall i | 0 <= i < |regs| ::
      r[i].verified == (regs[i].verified || regs[i].regCode == code) &&
      r[i] == regs[i].(verified := r[i].verified)
  {
    if regs == [] then []
    else
      var head := if regs[0].regCode == code then regs[0].(verified := true) else regs[0];
      var rest := MarkVerified(regs[1..], code);
      assert forall i | 0 < i < |regs| :: regs[i] == regs[1..][i - 1];
      [head] + rest
  }

  /** At most one registration per (event, user) pair. */
  ghost predicate OneRegistrationPerUser(regs: seq<Registration>)
  {
    forall i, j | 0 <= i < j < |regs| ::
      regs[i].eventId != regs[j].eventId || regs[i].userId != regs[j].userId
  }

  /** No two registrations share a registration code. */
  ghost predicate DistinctCodes(regs: seq<Registration>)
  {
    forall i, j | 0 <= i < j < |regs| :: regs[i].regCode != regs[j].regCode
  }

  /** Every capped event holds no more registrations than its `max_seats`. */
  ghost predicate WithinCapacity(events: seq<Event>, regs: seq<Registration>)
  {
    forall e | e in events && e.maxSeats > 0 :: UsedSeats(regs, e.id) <= e.maxSeats
  }

  // ------------------------------------------------------------------
  // Lemmas
  // ------------------------------------------------------------------

  /** Appending one registration raises its event's count by one and no other. */
  lemma {:induction false} UsedSeatsAppend(regs: seq<Registration>, row: Registration, eventId: nat)
    ensures UsedSeats(regs + [row], eventId)
         == UsedSeats(regs, eventId) + (if row.eventId == eventId then 1 else 0)
  {
    if regs != [] {
      assert (regs + [row])[1..] == regs[1..] + [row];
      UsedSeatsAppend(regs[1..], row, eventId);
    }
  }

  /** Flipping attendance flags does not change any event's seat count. */
  lemma {:induction false} MarkVerifiedKeepsSeats(regs: seq<Registration>, code: string, eventId: nat)
    ensures UsedSeats(MarkVerified(regs, code), eventId) == UsedSeats(regs, eventId)
  {
    if regs != [] {
      var r := MarkVerified(regs, code);
      assert r[1..] == MarkVerified(regs[1..], code);
      MarkVerifiedKeepsSeats(regs[1..], code, eventId);
    }
  }

  /** A second attendance scan with the same code leaves the table as the first one left it. */
  lemma MarkVerifiedIdempotent(regs: seq<Registration>, code: string)
    ensures MarkVerified(MarkVerified(regs, code), code) == MarkVerified(regs, code)
  {
  }

  /** A code that matches no row changes nothing. */
  lemma MarkVerifiedUnknownCode(regs: seq<Registration>, code: string)
    requires code !in Codes(regs)
    ensures MarkVerified(regs, code) == regs
  {
  }

  /** A delete that matches no row leaves the events table as it was. */
  lemma {:induction false} DeleteOwnedNoMatch(events: seq<Event>, id: nat, owner: nat)
    requires forall e | e in events :: !DeleteMatches(e, id, owner)
    ensures DeleteOwned(events, id, owner) == events
  {
    if events != [] {
      assert events == [events[0]] + events[1..];
      DeleteOwnedNoMatch(events[1..], id, owner);
    }
  }

  /** Deleting as one organizer leaves every other organizer's listing untouched. */
  lemma {:induction false} DeleteOwnedKeepsOthers(events: seq<Event>, id: nat, owner: nat, other: nat)
    requires other != owner
    ensures OwnedBy(DeleteOwned(events, id, owner), other) == OwnedBy(events, other)
  {
    if events != [] {
      DeleteOwnedKeepsOthers(events[1..], id, owner, other);
      if !DeleteMatches(events[0], id, owner) {
        assert ([events[0]] + DeleteOwned(events[1..], id, owner))[1..]
            == DeleteOwned(events[1..], id, owner);
      }
    }
  }

  /** The rows after the first keep distinct ids, and none shares the first row's id. */
  lemma UniqueIdsTail(events: seq<Event>)
    requires events != [] && UniqueEventIds(events)
    ensures UniqueEventIds(events[1..])
    ensures forall e | e in events[1..] :: e.id != events[0].id
  {
    forall i, j | 0 <= i < j < |events[1..]|
      ensures events[1..][i].id != events[1..][j].id
    {
      assert events[1..][i] == events[i + 1] && events[1..][j] == events[j + 1];
    }
    forall e | e in events[1..]
      ensures e.id != events[0].id
    {
      var k :| 0 <= k < |events[1..]| && events[1..][k] == e;
      assert events[k + 1] == e;
    }
  }

  /** A row whose id no other row has can go in front of rows with distinct ids. */
  lemma UniqueIdsCons(e: Event, rest: seq<Event>)
    requires UniqueEventIds(rest)
    requires forall x | x in rest :: x.id != e.id
    ensures UniqueEventIds([e] + rest)
  {
    var r := [e] + rest;
    forall i, j | 0 <= i < j < |r|
      ensures r[i].id != r[j].id
    {
      assert r[j] == rest[j - 1];
      if i > 0 {
        assert r[i] == rest[i - 1];
      } else {
        assert rest[j - 1] in rest;
      }
    }
  }

  /** Deleting rows never makes two of the remaining events share an id. */
  lemma {:induction false} DeleteOwnedKeepsUniqueIds(events: seq<Event>, id: nat, owner: nat)
    requires UniqueEventIds(events)
    ensures UniqueEventIds(DeleteOwned(events, id, owner))
  {
    if events != [] {
      UniqueIdsTail(events);
      DeleteOwnedKeepsUniqueIds(events[1..], id, owner);
      if !DeleteMatches(events[0], id, owner) {
        UniqueIdsCons(events[0], DeleteOwned(events[1..], id, owner));
      }
    }
  }

  /** A string of `n` characters, longer than any given code when `n` exceeds their lengths. */
  function Filler(n: nat): (s: string)
    ensures |s| == n
  {
    seq(n, _ => 'x')
  }

  /** An upper bound on the lengths of the registration codes. */
  function MaxCodeLength(regs: seq<Registration>): (n: nat)
    ensures forall r | r in regs :: |r.regCode| <= n
  {
    if regs == [] then 0
    else
      var rest := MaxCodeLength(regs[1..]);
      assert forall r | r in regs :: r == regs[0] || r in regs[1..];
      if |regs[0].regCode| > rest then |regs[0].regCode| else rest
  }

  /** However many registrations exist, there is a code none of them uses. */
  lemma FreshCodeExists(regs: seq<Registration>)
    ensures exists c :: c !in Codes(regs)
  {
    var c := Filler(MaxCodeLength(regs) + 1);
    assert c !in Codes(regs);
  }

  /**
    The two sequential invariants of the ledger survive appending a row that
    passed both guards: the pair is not yet registered and the event is not full.
    Registration codes stay distinct when the new code is fresh.
   */
  lemma AdmitKeepsInvariants(events: seq<Event>, regs: seq<Registration>, e: Event, row: Registration)
    requires UniqueEventIds(events) && e in events && row.eventId == e.id
    requires OneRegistrationPerUser(regs) && DistinctCodes(regs) && WithinCapacity(events, regs)
    requires !IsRegistered(regs, row.eventId, row.userId)
    requires !IsFull(e.maxSeats, UsedSeats(regs, e.id))
    requires row.regCode !in Codes(regs)
    ensures OneRegistrationPerUser(regs + [row])
    ensures DistinctCodes(regs + [row])
    ensures WithinCapacity(events, regs + [row])
  {
    var after := regs + [row];
    forall i, j | 0 <= i < j < |after|
      ensures after[i].eventId != after[j].eventId || after[i].userId != after[j].userId
      ensures after[i].regCode != after[j].regCode
    {
      if j == |regs| {
        assert after[i] == regs[i];
        assert regs[i] in regs;
      }
    }
    forall e' | e' in events && e'.maxSeats > 0
      ensures UsedSeats(after, e'.id) <= e'.maxSeats
    {
      UsedSeatsAppend(regs, row, e'.id);
    }
  }

  /** Flipping attendance keeps all three registration invariants. */
  lemma MarkVerifiedKeepsInvariants(events: seq<Event>, regs: seq<Registration>, code: string)
    requires OneRegistrationPerUser(regs) && DistinctCodes(regs) && WithinCapacity(events, regs)
    ensures OneRegistrationPerUser(MarkVerified(regs, code))
    ensures DistinctCodes(MarkVerified(regs, code))
    ensures WithinCapacity(events, MarkVerified(regs, code))
  {
    forall e | e in events && e.maxSeats > 0
      ensures UsedSeats(MarkVerified(regs, code), e.id) <= e.maxSeats
    {
      MarkVerifiedKeepsSeats(regs, code, e.id);
    }
  }
}
