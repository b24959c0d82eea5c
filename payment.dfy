/**
  The payment bridge: the order the gateway is asked to create, and the
  signature gate in front of the registration insert.
 */
module Payment {

  /** The signature value that skips the HMAC comparison. */
  const FreeSentinel: string := "FREE"

  /** The currency every order is created in. */
  const Currency: string := "INR"

  /** `crypto.createHmac("sha256", key).update(message).digest("hex")`. */
  type HmacSha256Hex = (string, string) -> string

  /** What is sent to `razorpay.orders.create`. */
  datatype OrderRequest = OrderRequest(amount: int, currency: string)

  /** What the gateway hands back to the callback. */
  datatype GatewayOrder = GatewayOrder(id: string, amount: int, currency: string)

  /** `razorpay.orders.create`, a call into the gateway. */
  type CreateOrder = OrderRequest -> GatewayOrder

  /** The fee gate of order creation: a fee of zero (or less) needs no payment. */
  predicate IsFreeEvent(fee: int)
    ensures IsFreeEvent(fee) <==> OrderAmount(fee) <= 0
  {
    fee <= 0
  }

  /** The amount in paise (minor units) for a fee in rupees. */
  function OrderAmount(fee: int): (paise: int)
    ensures paise % 100 == 0 && paise / 100 == fee
    ensures paise > 0 <==> fee > 0
  {
    fee * 100
  }

  /** The message the gateway signs: `${order_id}|${payment_id}`. */
  function SignedMessage(orderId: string, paymentId: string): (m: string)
    ensures |m| == |orderId| + 1 + |paymentId|
    ensures m[..|orderId|] == orderId && m[|orderId|] == '|' && m[|orderId| + 1..] == paymentId
  {
    orderId + "|" + paymentId
  }

  /** In the signed message the first `|` sits right after the order id. */
  lemma FirstBarEndsOrderId(orderId: string, paymentId: string)
    requires '|' !in orderId
    ensures |orderId| < |SignedMessage(orderId, paymentId)|
    ensures SignedMessage(orderId, paymentId)[|orderId|] == '|'
    ensures forall k | 0 <= k < |orderId| :: SignedMessage(orderId, paymentId)[k] != '|'
  {
  }

  /**
    When order ids carry no `|` (gateway ids are alphanumeric with `_`), the
    signed message determines the order id and the payment id; given an
    injective HMAC, an HMAC signature (any accepted signature other than the
    sentinel) accepted for one pair is then not accepted for another.
   */
  lemma SignedMessageInjective(o1: string, p1: string, o2: string, p2: string)
    requires '|' !in o1 && '|' !in o2
    requires SignedMessage(o1, p1) == SignedMessage(o2, p2)
    ensures o1 == o2 && p1 == p2
  {
    var m := SignedMessage(o1, p1);
    FirstBarEndsOrderId(o1, p1);
    FirstBarEndsOrderId(o2, p2);
    assert |o1| == |o2|;
    assert o1 == m[..|o1|] == o2;
    assert p1 == m[|o1| + 1..] == p2;
  }

  /** Without that restriction two different pairs share one signed message. */
  lemma SignedMessageAmbiguous()
    ensures SignedMessage("a|b", "c") == SignedMessage("a", "b|c")
  {
  }

  /**
    The signature gate: the sentinel is let through whatever ids accompany it
    (the event's fee is not an input), any other value must equal the hex
    HMAC-SHA256 of the signed message under the key secret.
   */
  predicate SignatureAccepted(signature: string, orderId: string, paymentId: string,
                              keySecret: string, hmac: HmacSha256Hex): (accepted: bool)
    ensures signature == FreeSentinel ==> accepted
    ensures signature == hmac(keySecret, SignedMessage(orderId, paymentId)) ==> accepted
    ensures accepted && signature != FreeSentinel ==> signature == hmac(keySecret, SignedMessage(orderId, paymentId))
  {
    signature == FreeSentinel || signature == hmac(keySecret, SignedMessage(orderId, paymentId))
  }
}
