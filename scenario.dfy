/**
  A client of the ledger: a single-seat free event, two students, and two
  scans of the first student's pass, reasoned about from the handlers'
  contracts alone.
 */
module Scenario {
  import opened Wrappers
  import opened Tables
  import opened Http
  import opened Auth
  import opened Payment
  import opened Server

  /** A session-token verifier that knows three tokens. */
  function KnownTokens(token: string, secret: string): Option<Claims>
  {
    if token == "org" then Some(Claims(1, Organizer))
    else if token == "alice" then Some(Claims(2, "student"))
    else if token == "bob" then Some(Claims(3, "student"))
    else None
  }

  /** The client's `Bearer <token>` header authenticates as the token's identity. */
  lemma SignedIn(ledger: Ledger, token: string, claims: Claims)
    requires ledger.config.jwtSecret == "jwt-secret" && ledger.config.verifyJwt == KnownTokens
    requires ' ' !in token && token != "" && KnownTokens(token, "jwt-secret") == Some(claims)
    ensures ledger.Caller(Some("Bearer " + token)) == Success(claims)
  {
    SessionTokenAuthenticates(token, "jwt-secret", KnownTokens, claims);
  }

  /** Alice's row alone takes the one seat and leaves Bob unregistered. */
  lemma AliceHoldsTheSeat(held: seq<Registration>)
    requires |held| == 1 && held[0].eventId == 1 && held[0].userId == 2
    ensures IsRegistered(held, 1, 2) && !IsRegistered(held, 1, 3)
    ensures UsedSeats(held, 1) == 1
  {
    assert held[1..] == [];
  }

  /** The services behind the scenario's ledger: every password matches itself and every digest is the same. */
  function ScenarioConfig(): Config
  {
    Config("jwt-secret", "key-secret", "https://events.example",
           KnownTokens,
           (c: Claims, s: string) => "token",
           (p: string) => p,
           (p: string, h: string) => p == h,
           (k: string, m: string) => "digest",
           (url: string) => "data:image/png;base64," + url,
           (r: OrderRequest) => GatewayOrder("order_1", r.amount, r.currency))
  }

  /** The organizer signs in and opens a free event with one seat. */
  method OpenSingleSeatEvent() returns (ledger: Ledger)
    ensures fresh(ledger) && ledger.Valid() && ledger.config == ScenarioConfig()
    ensures ledger.events == [Event(1, 1, "Hackathon", "2026-11-01", "Main Hall", "", 1, None, 0)]
    ensures ledger.registrations == []
  {
    ledger := new Ledger(ScenarioConfig());
    SignedIn(ledger, "org", Claims(1, Organizer));
    assert "Bearer " + "org" == "Bearer org";
    var created := ledger.CreateEvent(Some("Bearer org"), "Hackathon", "2026-11-01", "Main Hall",
                                      "", 1, Some(0), None);
  }

  /** Alice registers for the open event with the free sentinel and gets her pass. */
  method AliceRegisters(ledger: Ledger) returns (alice: Response)
    requires ledger.Valid() && ledger.config == ScenarioConfig()
    requires ledger.events == [Event(1, 1, "Hackathon", "2026-11-01", "Main Hall", "", 1, None, 0)]
    requires ledger.registrations == []
    modifies ledger`registrations, ledger`nextRegistrationId
    ensures ledger.Valid() && ledger.events == old(ledger.events)
    ensures alice.Reply? && alice.status == 200 && alice.body.QrPass?
    ensures |ledger.registrations| == 1
    ensures ledger.registrations[0].eventId == 1 && ledger.registrations[0].userId == 2
  {
    SignedIn(ledger, "alice", Claims(2, "student"));
    assert "Bearer " + "alice" == "Bearer alice";
    assert FindEvent(ledger.events, 1) == Some(ledger.events[0]);
    alice := ledger.VerifyPaymentAndRegister(Some("Bearer alice"), 1, "FREE_EVENT", "FREE_ORDER",
                                             FreeSentinel, "Alice", "R-01", "CSE");
    assert SignatureAccepted(FreeSentinel, "FREE_ORDER", "FREE_EVENT", ledger.config.razorpayKeySecret,
                             ledger.config.hmacSha256Hex);
  }

  /**
    The organizer creates an event with one seat and no fee; Alice registers
    with the free sentinel and gets a pass; Bob is turned away because the
    event is full; scanning Alice's code twice verifies her row once and for all.
   */
  method SingleSeatEvent() returns (alice: Response, bob: Response, scanned: seq<Registration>,
                                    rescanned: seq<Registration>)
    ensures alice.Reply? && alice.status == 200 && alice.body.QrPass?
    ensures bob == Reply(403, Message("Event is full"))
    ensures |scanned| == 1 && scanned[0].userId == 2 && scanned[0].verified
    ensures rescanned == scanned
  {
    var ledger := OpenSingleSeatEvent();
    alice := AliceRegisters(ledger);
    var code := ledger.registrations[0].regCode;
    var held := ledger.registrations;
    AliceHoldsTheSeat(held);

    SignedIn(ledger, "bob", Claims(3, "student"));
    assert "Bearer " + "bob" == "Bearer bob";
    assert FindEvent(ledger.events, 1) == Some(ledger.events[0]);
    bob := ledger.VerifyPaymentAndRegister(Some("Bearer bob"), 1, "FREE_EVENT", "FREE_ORDER",
                                           FreeSentinel, "Bob", "R-02", "ECE");
    assert ledger.registrations == held;

    var page := ledger.VerifyAttendance(code);
    scanned := ledger.registrations;
    page := ledger.VerifyAttendance(code);
    rescanned := ledger.registrations;
    MarkVerifiedIdempotent(scanned, code);
  }
}
