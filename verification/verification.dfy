/** The license-key check: the request the launcher sends (main.cpp:131-137),
    the classification of the reply into a `VerifyResult`
    (main.cpp:122-126, 143-190, 215-223), the tagged reading of that result
    the frame loop applies (main.cpp:654-666), and the single-slot mailbox
    through which the detached verifier hands its result to the frame loop
    (main.cpp:240-242, 391-393, 650-653). The WinHTTP calls themselves are
    an abstract `Transport` outcome. */
module Verification {
  import opened Wrappers
  import opened Numeric
  import opened Strings
  import opened UrlEncoding

  /** A Win32 `DWORD`. */
  type Dword = n: nat | n < 0x1_0000_0000

  datatype VerifyResult = VerifyResult(success: bool, networkError: bool, statusMessage: Bytes)

  /** What the WinHTTP exchange came to: one of the five failing calls, or a
      completed exchange with the status code the header query left (0 when
      it failed) and the concatenated body. */
  datatype Transport =
    | OpenFailed
    | ConnectFailed
    | OpenRequestFailed
    | SendFailed
    | ReceiveFailed
    | Responded(statusCode: Dword, body: Bytes)

  const VerifyPathPrefix: Bytes := "/verify/v1/nitrosdk?key="

  const NetworkErrorPrefix: Bytes := "Network error: "
  const HttpPrefix: Bytes := "HTTP "
  const ValidMarker: Bytes := "\"valid\":true"
  const SuccessMarker: Bytes := "\"success\":true"
  const TrueBody: Bytes := "true"

  /** The request path of main.cpp:136: the fixed prefix, then the key
      percent-encoded so that the server reads back exactly the key. */
  function RequestPath(key: Bytes): (p: Bytes)
    ensures |p| == |VerifyPathPrefix| + EncodedLength(key)
    ensures p[..|VerifyPathPrefix|] == VerifyPathPrefix
    ensures Decode(p[|VerifyPathPrefix|..]) == Some(key)
    ensures Canonical(p[|VerifyPathPrefix|..])
  {
    EncodeLength(key);
    DecodeEncode(key);
    EncodeIsCanonical(key);
    var p := VerifyPathPrefix + Encode(key);
    assert p[|VerifyPathPrefix|..] == Encode(key);
    p
  }

  /** The acceptance test of main.cpp:216-218, written with `find`. */
  predicate BodyAccepts(body: Bytes) {
    Find(body, ValidMarker).Some? || Find(body, SuccessMarker).Some? || body == TrueBody
  }

  /** The tail of `VerifyKeyOnline` (main.cpp:215-222): the status code only
      labels the message; the body alone decides success. */
  function Classify(code: Dword, body: Bytes): (r: VerifyResult)
    ensures r.success <==> Contains(body, ValidMarker) || Contains(body, SuccessMarker) || body == TrueBody
    ensures !r.networkError
    ensures |r.statusMessage| > |HttpPrefix| && r.statusMessage[..|HttpPrefix|] == HttpPrefix
    ensures var digits := r.statusMessage[|HttpPrefix|..];
      && (forall i :: 0 <= i < |digits| ==> IsDigit(digits[i]))
      && DecimalValue(digits) == code
      && (|digits| > 1 ==> digits[0] != '0')
      && digits == Decimal(code)
  {
    FindDecidesContains(body, ValidMarker);
    FindDecidesContains(body, SuccessMarker);
    DecimalRoundTrip(code);
    var message := HttpPrefix + Decimal(code);
    assert message[|HttpPrefix|..] == Decimal(code);
    VerifyResult(BodyAccepts(body), false, message)
  }

  function FailureMessage(t: Transport): Bytes
    requires !t.Responded?
  {
    match t
    case OpenFailed => "Network error: WinHttpOpen failed"
    case ConnectFailed => "Network error: WinHttpConnect failed"
    case OpenRequestFailed => "Network error: WinHttpOpenRequest failed"
    case SendFailed => "Network error: WinHttpSendRequest failed"
    case ReceiveFailed => "Network error: WinHttpReceiveResponse failed"
  }

  /** `VerifyKeyOnline` (main.cpp:133-224) once the transport has run: a
      failing WinHTTP call yields a network error naming that call, a
      completed exchange is classified by its body. */
  function VerifyKeyOnline(t: Transport): (r: VerifyResult)
    ensures r.networkError <==> !t.Responded?
    ensures r.networkError ==> !r.success
    ensures r.networkError ==>
      |r.statusMessage| > |NetworkErrorPrefix| && r.statusMessage[..|NetworkErrorPrefix|] == NetworkErrorPrefix
    ensures t.Responded? ==>
      (r.success <==> Contains(t.body, ValidMarker) || Contains(t.body, SuccessMarker) || t.body == TrueBody)
  {
    match t
    case Responded(code, body) => Classify(code, body)
    case _ => VerifyResult(false, true, FailureMessage(t))
  }

  /** Distinct failing calls produce distinct messages. */
  lemma FailureMessagesDistinct(t: Transport, u: Transport)
    requires !t.Responded? && !u.Responded? && t != u
    ensures VerifyKeyOnline(t).statusMessage != VerifyKeyOnline(u).statusMessage
  {
    var m, n := FailureMessage(t), FailureMessage(u);
    if |m| == |n| {
      assert m[22] != n[22];
    }
  }

  /** The three outcomes the frame loop tells apart. */
  datatype VerifyOutcome = Accepted | Declined | NetworkError(message: Bytes)

  /** The order of tests in main.cpp:654-666: the network flag first, then
      success. */
  function OutcomeOf(r: VerifyResult): VerifyOutcome {
    if r.networkError then NetworkError(r.statusMessage)
    else if r.success then Accepted
    else Declined
  }

  /** Each transport outcome leads to exactly one frame-loop outcome. */
  lemma OutcomeOfTransport(t: Transport)
    ensures OutcomeOf(VerifyKeyOnline(t)).NetworkError? <==> !t.Responded?
    ensures OutcomeOf(VerifyKeyOnline(t)).Accepted? <==>
      t.Responded? && (Contains(t.body, ValidMarker) || Contains(t.body, SuccessMarker) || t.body == TrueBody)
    ensures OutcomeOf(VerifyKeyOnline(t)).Declined? <==>
      t.Responded? && !(Contains(t.body, ValidMarker) || Contains(t.body, SuccessMarker) || t.body == TrueBody)
  {
  }

  /** A body carrying `"success":true` anywhere is accepted, whatever the
      status code. */
  lemma SuccessMarkerAccepted(code: Dword, before: Bytes, after: Bytes)
    ensures OutcomeOf(VerifyKeyOnline(Responded(code, before + SuccessMarker + after))) == Accepted
  {
    assert OccursAt(SuccessMarker, SuccessMarker, 0);
    ContainsExtends(SuccessMarker, SuccessMarker, before, after);
  }

  /** The body `{"success":false}` is declined. */
  lemma DeclinedExample()
    ensures OutcomeOf(VerifyKeyOnline(Responded(200, "{\"success\":false}"))) == Declined
  {
    var body: Bytes := "{\"success\":false}";
    assert SuccessMarker[10] == 't' && ValidMarker[1] == 'v';
    forall j | 0 <= j < |body|
      ensures body[j] != 't' && body[j] != 'v'
    {
    }
    forall i | 0 <= i <= |body|
      ensures !OccursAt(body, ValidMarker, i) && !OccursAt(body, SuccessMarker, i)
    {
      OccurrenceChars(body, ValidMarker, 1, i);
      OccurrenceChars(body, SuccessMarker, 10, i);
    }
  }

  /** The shared slot of `AppState` (main.cpp:240-242): the last result and
      the ready flag, always accessed under `verify_mutex`. */
  datatype Mailbox = Mailbox(result: VerifyResult, ready: bool)

  const EmptyMailbox := Mailbox(VerifyResult(false, false, []), false)

  /** The verifier thread's critical section (main.cpp:391-393). */
  function Deposit(m: Mailbox, r: VerifyResult): (m': Mailbox)
    ensures m'.ready && m'.result == r
  {
    Mailbox(r, true)
  }

  /** The frame loop's critical section (main.cpp:650-653): when the flag is
      set, read the result and clear the flag; otherwise observe nothing. */
  function Take(m: Mailbox): (out: (Option<VerifyResult>, Mailbox))
    ensures m.ready ==> out.0 == Some(m.result) && !out.1.ready
    ensures !m.ready ==> out.0 == None && out.1 == m
  {
    if m.ready then (Some(m.result), m.(ready := false)) else (None, m)
  }

  /** A deposited result is observed by the next take, and only by it. */
  lemma DeliveredExactlyOnce(m: Mailbox, r: VerifyResult)
    ensures Take(Deposit(m, r)).0 == Some(r)
    ensures Take(Take(Deposit(m, r)).1).0 == None
  {
  }
}
