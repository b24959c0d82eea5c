/**
  The route handlers of the backend as methods on one ledger object whose
  fields are the `users`, `events` and `event_registrations` tables. Each
  handler runs its checks in the order the server does and then performs at
  most one INSERT, UPDATE or DELETE.
 */
module Server {
  import opened Wrappers
  import opened Tables
  import opened Http
  import opened Auth
  import opened Payment

  /**
    The environment the server reads (`JWT_SECRET`, `RAZORPAY_KEY_SECRET`,
    `BASE_URL`) and the library calls it makes, which are not modelled further.
   */
  datatype Config = Config(
    jwtSecret: string,
    razorpayKeySecret: string,
    baseUrl: string,
    verifyJwt: JwtVerify,
    signJwt: (Claims, string) -> string,
    hashPassword: string -> string,
    comparePassword: (string, string) -> bool,
    hmacSha256Hex: HmacSha256Hex,
    qrDataUrl: string -> string,
    createOrder: CreateOrder)

  /** The role allowed to create events and list its own. */
  const Organizer: string := "organizer"

  /** The page the attendance scan answers with, whatever the code. */
  const AttendanceVerifiedPage: string := "<h2>Attendance Verified \U{2705}</h2>"

  /** The link encoded in a registration's QR pass. */
  function VerifyUrl(baseUrl: string, regCode: string): (url: string)
    ensures |url| == |baseUrl| + 12 + |regCode|
    ensures url[..|baseUrl|] == baseUrl
    ensures url[|baseUrl|..|baseUrl| + 12] == "/api/verify/"
    ensures url[|baseUrl| + 12..] == regCode
  {
    baseUrl + "/api/verify/" + regCode
  }

  /** Where the upload middleware stores a thumbnail, as recorded in the row. */
  function ThumbnailPath(upload: Option<string>): (r: Option<string>)
    ensures r.Some? <==> upload.Some?
    ensures r.Some? ==> |r.value| == 9 + |upload.value| && r.value[..9] == "/uploads/" && r.value[9..] == upload.value
  {
    match upload
    case None => None
    case Some(filename) => Some("/uploads/" + filename)
  }

  class Ledger {
    var users: seq<User>
    var events: seq<Event>
    var registrations: seq<Registration>
    /** The next AUTO_INCREMENT values of the three tables. */
    var nextUserId: nat
    var nextEventId: nat
    var nextRegistrationId: nat
    const config: Config

    /** The invariants a sequential run of the handlers keeps. */
    ghost predicate Valid()
      reads this
    {
      UniqueEmails(users) &&
      (forall u | u in users :: u.id < nextUserId) &&
      UniqueEventIds(events) &&
      (forall e | e in events :: e.id < nextEventId) &&
      (forall r | r in registrations :: r.eventId < nextEventId && r.id < nextRegistrationId) &&
      OneRegistrationPerUser(registrations) &&
      DistinctCodes(registrations) &&
      WithinCapacity(events, registrations)
    }

    /** Empty tables, with AUTO_INCREMENT starting at 1. */
    constructor (config: Config)
      ensures Valid()
      ensures this.config == config
      ensures users == [] && events == [] && registrations == []
      ensures nextUserId == 1 && nextEventId == 1 && nextRegistrationId == 1
    {
      this.config := config;
      users, events, registrations := [], [], [];
      nextUserId, nextEventId, nextRegistrationId := 1, 1, 1;
    }

    /** The `auth` middleware as it runs in front of a protected route. */
    function Caller(authorization: Option<string>): (r: Result<Claims, Response>)
      ensures r.Failure? ==> r.error.Reply? && r.error.status == 401
      ensures authorization.None? ==> r == Failure(Reply(401, Message("No token")))
      ensures r.Success? ==> BearerToken(authorization).Some?
      ensures r.Success? ==> config.verifyJwt(BearerToken(authorization).value, config.jwtSecret) == Some(r.value)
    {
      Authenticate(authorization, config.jwtSecret, config.verifyJwt)
    }

    /** `POST /api/auth/register`: the unique e-mail constraint turns a repeat into 400. */
    method RegisterUser(name: string, email: string, password: string, role: string)
      returns (resp: Response)
      requires Valid()
      modifies this`users, this`nextUserId
      ensures Valid()
      ensures EmailTaken(old(users), email) ==>
        resp == Reply(400, Message("User exists")) && unchanged(this)
      ensures !EmailTaken(old(users), email) ==>
        resp == Reply(200, Message("Registered")) &&
        users == old(users) + [User(old(nextUserId), name, email, config.hashPassword(password), role)] &&
        nextUserId == old(nextUserId) + 1
    {
      if EmailTaken(users, email) {
        return Reply(400, Message("User exists"));
      }
      users := users + [User(nextUserId, name, email, config.hashPassword(password), role)];
      nextUserId := nextUserId + 1;
      resp := Reply(200, Message("Registered"));
    }

    /** `POST /api/auth/login`: a session token carrying `{id, role}` for the right password. */
    method Login(email: string, password: string) returns (resp: Response)
      ensures resp.Reply? && (resp.status == 200 || resp.status == 401)
      ensures resp.status == 200 <==>
        FindByEmail(users, email).Some? &&
        config.comparePassword(password, FindByEmail(users, email).value.passwordHash)
      ensures resp.status == 401 ==> resp.body == Message("Invalid")
      ensures resp.status == 200 ==>
        var u := FindByEmail(users, email).value;
        resp.body == Session(config.signJwt(Claims(u.id, u.role), config.jwtSecret), u.id, u.role)
    {
      var found := FindByEmail(users, email);
      if found.None? {
        return Reply(401, Message("Invalid"));
      }
      var user := found.value;
      if !config.comparePassword(password, user.passwordHash) {
        return Reply(401, Message("Invalid"));
      }
      var token := config.signJwt(Claims(user.id, user.role), config.jwtSecret);
      resp := Reply(200, Session(token, user.id, user.role));
    }

    /** `POST /api/events`: organizers only; the new row is owned by the caller. */
    method CreateEvent(authorization: Option<string>, name: string, eventDate: string, venue: string,
                       description: string, maxSeats: int, registrationFee: Option<int>,
                       upload: Option<string>)
      returns (resp: Response)
      requires Valid()
      modifies this`events, this`nextEventId
      ensures Valid()
      ensures Caller(authorization).Failure? ==>
        resp == Caller(authorization).error && unchanged(this)
      ensures Caller(authorization).Success? && Caller(authorization).value.role != Organizer ==>
        resp == Reply(403, Message("Forbidden")) && unchanged(this)
      ensures Caller(authorization).Success? && Caller(authorization).value.role == Organizer ==>
        resp == Reply(200, Message("Event created")) &&
        events == old(events) + [Event(old(nextEventId), Caller(authorization).value.id, name, eventDate,
                                       venue, description, maxSeats, ThumbnailPath(upload),
                                       registrationFee.GetOr(0))] &&
        nextEventId == old(nextEventId) + 1
    {
      var caller := Caller(authorization);
      if caller.Failure? {
        return caller.error;
      }
      if caller.value.role != Organizer {
        return Reply(403, Message("Forbidden"));
      }
      var row := Event(nextEventId, caller.value.id, name, eventDate, venue, description, maxSeats,
                       ThumbnailPath(upload), registrationFee.GetOr(0));
      assert UsedSeats(registrations, row.id) == 0;
      events := events + [row];
      nextEventId := nextEventId + 1;
      resp := Reply(200, Message("Event created"));
    }

    /** `GET /api/organizer/events`: organizers only; exactly the caller's own events. */
    method OrganizerEvents(authorization: Option<string>) returns (resp: Response)
      ensures Caller(authorization).Failure? ==> resp == Caller(authorization).error
      ensures Caller(authorization).Success? && Caller(authorization).value.role != Organizer ==>
        resp == Reply(403, Message("Forbidden"))
      ensures Caller(authorization).Success? && Caller(authorization).value.role == Organizer ==>
        resp.Reply? && resp.status == 200 && resp.body.EventRows? &&
        forall e :: e in resp.body.rows <==>
          e in events && e.organizerId == Caller(authorization).value.id
      ensures Caller(authorization).Success? && Caller(authorization).value.role == Organizer ==>
        resp.Reply? && resp.body.EventRows? && resp.body.rows == OwnedBy(events, Caller(authorization).value.id)
    {
      var caller := Caller(authorization);
      if caller.Failure? {
        return caller.error;
      }
      if caller.value.role != Organizer {
        return Reply(403, Message("Forbidden"));
      }
      resp := Reply(200, EventRows(OwnedBy(events, caller.value.id)));
    }

    /**
      `DELETE /api/events/:id`: removes the event only when the caller owns it,
      and answers "Deleted" either way. There is no role check.
     */
    method DeleteEvent(authorization: Option<string>, id: nat) returns (resp: Response)
      requires Valid()
      modifies this`events
      ensures Valid()
      ensures Caller(authorization).Failure? ==>
        resp == Caller(authorization).error && unchanged(this)
      ensures Caller(authorization).Success? ==>
        resp == Reply(200, Message("Deleted")) &&
        events == DeleteOwned(old(events), id, Caller(authorization).value.id)
    {
      var caller := Caller(authorization);
      if caller.Failure? {
        return caller.error;
      }
      DeleteOwnedKeepsUniqueIds(events, id, caller.value.id);
      events := DeleteOwned(events, id, caller.value.id);
      resp := Reply(200, Message("Deleted"));
    }

    /**
      `POST /api/events/:id/create-payment-order`. The checks run in order and
      the first that fails decides: already registered (400), no such event
      (404), full (403), free (400). Otherwise the gateway is asked for an order
      of the fee in paise, and `sent` is that request. No table changes.
     */
    method CreatePaymentOrder(authorization: Option<string>, eventId: nat)
      returns (resp: Response, sent: Option<OrderRequest>)
      ensures sent.Some? ==>
        var c := Caller(authorization);
        var e := FindEvent(events, eventId);
        c.Success? && !IsRegistered(registrations, eventId, c.value.id) &&
        e.Some? && !IsFull(e.value.maxSeats, UsedSeats(registrations, eventId)) &&
        sent.value == OrderRequest(OrderAmount(e.value.registrationFee), Currency) &&
        sent.value.amount > 0 &&
        var order := config.createOrder(sent.value);
        resp == Reply(200, PaymentOrder(order.id, order.amount, order.currency))
      ensures Caller(authorization).Failure? ==>
        resp == Caller(authorization).error && sent == None
      ensures Caller(authorization).Success? ==>
        var userId := Caller(authorization).value.id;
        var found := FindEvent(events, eventId);
        if IsRegistered(registrations, eventId, userId) then
          resp == Reply(400, Message("Already registered")) && sent == None
        else if found.None? then
          resp == Reply(404, Message("Event not found")) && sent == None
        else if IsFull(found.value.maxSeats, UsedSeats(registrations, eventId)) then
          resp == Reply(403, Message("Event is full")) && sent == None
        else if IsFreeEvent(found.value.registrationFee) then
          resp == Reply(400, Message("Free event")) && sent == None
        else
          sent.Some?
    {
      sent := None;
      var caller := Caller(authorization);
      if caller.Failure? {
        return caller.error, None;
      }
      if IsRegistered(registrations, eventId, caller.value.id) {
        return Reply(400, Message("Already registered")), None;
      }
      var found := FindEvent(events, eventId);
      if found.None? {
        return Reply(404, Message("Event not found")), None;
      }
      var event := found.value;
      var usedSeats := UsedSeats(registrations, eventId);
      if IsFull(event.maxSeats, usedSeats) {
        return Reply(403, Message("Event is full")), None;
      }
      if IsFreeEvent(event.registrationFee) {
        return Reply(400, Message("Free event")), None;
      }
      var request := OrderRequest(OrderAmount(event.registrationFee), Currency);
      var order := config.createOrder(request);
      resp, sent := Reply(200, PaymentOrder(order.id, order.amount, order.currency)), Some(request);
    }

    /**
      `POST /api/events/:id/verify-payment-and-register`. After the signature
      gate, the duplicate check and the seat check, exactly one row is appended
      with a fresh registration code, and the reply is the QR pass for that
      code's verification link. A missing event makes the handler throw
      (`Aborted`). Every rejection leaves the tables as they were.
     */
    method VerifyPaymentAndRegister(authorization: Option<string>, eventId: nat,
                                    paymentId: string, orderId: string, signature: string,
                                    studentName: string, registerNo: string, department: string)
      returns (resp: Response)
      requires Valid()
      modifies this`registrations, this`nextRegistrationId
      ensures Valid()
      ensures registrations != old(registrations) ==>
        resp.Reply? && resp.status == 200 &&
        SignatureAccepted(signature, orderId, paymentId, config.razorpayKeySecret, config.hmacSha256Hex)
      ensures Caller(authorization).Failure? ==>
        resp == Caller(authorization).error && unchanged(this)
      ensures Caller(authorization).Success? ==>
        var userId := Caller(authorization).value.id;
        var found := FindEvent(events, eventId);
        if !SignatureAccepted(signature, orderId, paymentId, config.razorpayKeySecret, config.hmacSha256Hex) then
          resp == Reply(400, Message("Invalid signature")) && unchanged(this)
        else if IsRegistered(old(registrations), eventId, userId) then
          resp == Reply(400, Message("Already registered")) && unchanged(this)
        else if found.None? then
          resp == Aborted && unchanged(this)
        else if IsFull(found.value.maxSeats, UsedSeats(old(registrations), eventId)) then
          resp == Reply(403, Message("Event is full")) && unchanged(this)
        else
          |registrations| == |old(registrations)| + 1 &&
          registrations[..|old(registrations)|] == old(registrations) &&
          var row := registrations[|old(registrations)|];
          row == Registration(old(nextRegistrationId), eventId, userId, studentName, registerNo,
                              department, row.regCode, paymentId, false) &&
          row.regCode !in Codes(old(registrations)) &&
          nextRegistrationId == old(nextRegistrationId) + 1 &&
          resp == Reply(200, QrPass(config.qrDataUrl(VerifyUrl(config.baseUrl, row.regCode))))
    {
      var caller := Caller(authorization);
      if caller.Failure? {
        return caller.error;
      }
      if !SignatureAccepted(signature, orderId, paymentId, config.razorpayKeySecret, config.hmacSha256Hex) {
        return Reply(400, Message("Invalid signature"));
      }
      // uuidv4(): any code the table does not hold yet.
      FreshCodeExists(registrations);
      var regCode :| regCode !in Codes(registrations);
      var userId := caller.value.id;
      if IsRegistered(registrations, eventId, userId) {
        return Reply(400, Message("Already registered"));
      }
      var found := FindEvent(events, eventId);
      if found.None? {
        return Aborted;
      }
      var event := found.value;
      if IsFull(event.maxSeats, UsedSeats(registrations, eventId)) {
        return Reply(403, Message("Event is full"));
      }
      var row := Registration(nextRegistrationId, eventId, userId, studentName, registerNo,
                              department, regCode, paymentId, false);
      AdmitKeepsInvariants(events, registrations, event, row);
      registrations := registrations + [row];
      nextRegistrationId := nextRegistrationId + 1;
      resp := Reply(200, QrPass(config.qrDataUrl(VerifyUrl(config.baseUrl, regCode))));
    }

    /**
      `GET /api/verify/:code`, unauthenticated: sets `verified` on the rows
      holding the code and answers with the same page whether or not any did.
     */
    method VerifyAttendance(code: string) returns (resp: Response)
      requires Valid()
      modifies this`registrations
      ensures Valid()
      ensures registrations == MarkVerified(old(registrations), code)
      ensures resp == Reply(200, Html(AttendanceVerifiedPage))
    {
      MarkVerifiedKeepsInvariants(events, registrations, code);
      registrations := MarkVerified(registrations, code);
      resp := Reply(200, Html(AttendanceVerifiedPage));
    }
  }
}
