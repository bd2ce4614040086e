/** The chatbot relay's bookkeeping: per-socket sessions, the table of open
    connections, and the per-user ten-second rate limit kept in
    `lastRequestTimes`. The clock reading, the fresh uuids and the outcome of
    the call to the chatbot service are given to the methods. */
module Chatbot {
  import opened Base

  const AnonymousPrefix := "anonymous_"
  const MinInterval := 10000

  const InvalidFormatMsg := "Invalid request format"
  const EmptyMessageMsg := "Message cannot be empty"
  const AbortMsg := "Request timeout - Chatbot membutuhkan waktu terlalu lama"
  const BusyMsg := "Chatbot service sedang sibuk, coba lagi dalam beberapa menit"
  const BodyTimeoutMsg := "Response timeout - Chatbot membutuhkan waktu terlalu lama"
  const ApiErrorPrefix := "Chatbot API error: "
  const UnreachableMsg := "Tidak dapat menghubungi chatbot service - coba lagi nanti"
  const FallbackMsg := "Terjadi kesalahan saat memproses pesan Anda"

  // ----- decimal rendering of the wait time -----

  function Digit(d: nat): char
    requires d < 10
  {
    "0123456789"[d]
  }

  /** A number as template literals print it. */
  function NatToString(n: nat): (s: string)
    ensures |s| >= 1
    ensures forall i :: 0 <= i < |s| ==> '0' <= s[i] <= '9'
  {
    if n < 10 then [Digit(n)] else NatToString(n / 10) + [Digit(n % 10)]
  }

  /** The number a string of decimal digits denotes. */
  function DecimalValue(s: string): nat
    requires forall i :: 0 <= i < |s| ==> '0' <= s[i] <= '9'
  {
    if s == [] then 0
    else DecimalValue(s[..|s| - 1]) * 10 + (s[|s| - 1] as int - '0' as int)
  }

  lemma DigitValue(d: nat)
    requires d < 10
    ensures Digit(d) as int - '0' as int == d
  {
  }

  /** Reading the printed number back gives the number. */
  lemma {:induction false} NatToStringRoundTrip(n: nat)
    ensures DecimalValue(NatToString(n)) == n
  {
    var s := NatToString(n);
    if n < 10 {
      DigitValue(n);
      assert s[..0] == [];
    } else {
      var p := NatToString(n / 10);
      NatToStringRoundTrip(n / 10);
      DigitValue(n % 10);
      assert s[..|s| - 1] == p;
    }
  }

  // ----- the rate limit -----

  /** `lastRequestTimes.get(userId) || 0`. */
  function LastRequest(times: map<string, int>, u: string): int {
    if u in times then times[u] else 0
  }

  /** A request of `u` at `now` comes too soon. */
  predicate Limited(times: map<string, int>, u: string, now: int) {
    now - LastRequest(times, u) < MinInterval
  }

  /** `Math.ceil((10000 - elapsed) / 1000)`: the whole seconds still to wait. */
  function WaitSeconds(elapsed: int): (w: nat)
    requires elapsed < MinInterval
    ensures (w - 1) * 1000 < MinInterval - elapsed <= w * 1000
    ensures 0 <= elapsed ==> 1 <= w <= 10
  {
    (MinInterval - elapsed + 999) / 1000
  }

  function WaitMsg(w: nat): string {
    "Mohon tunggu " + NatToString(w) + " detik sebelum mengirim pesan lagi"
  }

  /** Recording a request limits its user for exactly the next ten seconds
      and nobody else differently. */
  lemma RecordedLimits(times: map<string, int>, u: string, now: int, t: int, v: string)
    ensures Limited(times[u := now], u, t) <==> t - now < MinInterval
    ensures v != u ==> Limited(times[u := now], v, t) == Limited(times, v, t)
  {
  }

  /** Forgetting a user's entry lifts the limit at any clock reading past the
      first ten seconds of the epoch, and changes nobody else's. */
  lemma ForgottenUnlimited(times: map<string, int>, u: string, t: int, v: string)
    requires t >= MinInterval
    ensures !Limited(times - {u}, u, t)
    ensures v != u ==> Limited(times - {u}, v, t) == Limited(times, v, t)
  {
  }

  lemma ForgetRecorded(times: map<string, int>, u: string, now: int)
    ensures times[u := now] - {u} == times - {u}
  {
  }

  // ----- failures of the chatbot call -----

  /** What the `catch` sees: the error's `name`, optional `code` and `message`. */
  datatype Failure = Failure(name: string, code: Option<string>, message: string)

  /** The outcome of calling the chatbot service. */
  datatype ApiResult = Answered(response: string) | HttpFailure(status: nat, body: string) | Thrown(failure: Failure)

  /** The error a non-2xx answer is turned into. */
  function HttpFailureOf(status: nat, body: string): Failure {
    Failure("Error", None, "HTTP error! status: " + NatToString(status) + ", body: " + body)
  }

  function FailureOf(api: ApiResult): Failure
    requires !api.Answered?
  {
    if api.HttpFailure? then HttpFailureOf(api.status, api.body) else api.failure
  }

  /** The message sent for a failed call, by the first test that matches. */
  function Classify(e: Failure): (m: string)
    ensures e.name == "AbortError" ==> m == AbortMsg
    ensures e.code.None? && !Contains(e.message, "HTTP error") && !Contains(e.message, "fetch") ==>
      m == (if e.name == "AbortError" then AbortMsg else FallbackMsg)
  {
    if e.name == "AbortError" then AbortMsg
    else if e.code == Some("UND_ERR_HEADERS_TIMEOUT") then BusyMsg
    else if e.code == Some("UND_ERR_BODY_TIMEOUT") then BodyTimeoutMsg
    else if Contains(e.message, "HTTP error") then ApiErrorPrefix + e.message
    else if Contains(e.message, "fetch") || (e.code.Some? && StartsWith(e.code.value, "UND_ERR_")) then UnreachableMsg
    else FallbackMsg
  }

  /** A non-2xx answer always reaches the client as an API error carrying the
      status and the body. */
  lemma HttpFailureReported(status: nat, body: string)
    ensures Classify(HttpFailureOf(status, body)) ==
      ApiErrorPrefix + "HTTP error! status: " + NatToString(status) + ", body: " + body
  {
    var msg := HttpFailureOf(status, body).message;
    assert StartsWith(msg[0..], "HTTP error");
  }

  /** Any undici error code other than the two timeouts counts as the service
      being unreachable, unless the error was an abort or names an HTTP error. */
  lemma UndiciUnreachable(e: Failure)
    requires e.name != "AbortError" && !Contains(e.message, "HTTP error")
    requires e.code.Some? && StartsWith(e.code.value, "UND_ERR_")
    requires e.code.value != "UND_ERR_HEADERS_TIMEOUT" && e.code.value != "UND_ERR_BODY_TIMEOUT"
    ensures Classify(e) == UnreachableMsg
  {
  }

  // ----- sockets and the relay -----

  /** What the relay sends back on a socket. */
  datatype Reply =
    | Connected(connectionId: string, anonymousId: string, isAnonymous: bool)
    | AuthSuccess
    | AuthAnonymous(anonymousId: string)
    | ErrorReply(message: string)
    | Processing(isAnonymous: bool)
    | ChatbotResponse(message: string, response: string)
    | ChatbotError(message: string)

  /** An incoming frame, once parsed. */
  datatype Incoming = Unparsable | ChatbotRequest(message: Option<string>) | AuthRequest(userId: Option<string>) | OtherType

  /** The fields the relay keeps on a socket. */
  class Session {
    var userId: string
    var isAnonymous: bool

    constructor(userId: string, isAnonymous: bool)
      ensures this.userId == userId && this.isAnonymous == isAnonymous
    {
      this.userId := userId;
      this.isAnonymous := isAnonymous;
    }

    /** An `auth` frame: a truthy user id replaces the anonymous one. */
    method Authenticate(u: Option<string>) returns (reply: Reply)
      modifies this
      ensures Truthy(u) ==> userId == u.value && !isAnonymous && reply == AuthSuccess
      ensures !Truthy(u) ==>
        userId == old(userId) && isAnonymous == old(isAnonymous) && reply == AuthAnonymous(userId)
    {
      if Truthy(u) {
        userId := u.value;
        isAnonymous := false;
        reply := AuthSuccess;
      } else {
        reply := AuthAnonymous(userId);
      }
    }
  }

  predicate BlankMessage(message: Option<string>) {
    !Truthy(message) || Trim(message.value) == []
  }

  class Relay {
    /** `activeConnections`. */
    var active: map<string, Session>
    /** `lastRequestTimes`, in milliseconds. */
    var lastRequestTimes: map<string, int>

    constructor()
      ensures active == map[] && lastRequestTimes == map[]
    {
      active := map[];
      lastRequestTimes := map[];
    }

    /** A new socket: registered under its connection id, with an anonymous
        user id built from a fresh uuid. */
    method Connect(connectionId: string, uuid: string) returns (ws: Session, reply: Reply)
      modifies this
      ensures fresh(ws)
      ensures ws.userId == AnonymousPrefix + uuid && ws.isAnonymous
      ensures active == old(active)[connectionId := ws] && lastRequestTimes == old(lastRequestTimes)
      ensures reply == Connected(connectionId, AnonymousPrefix + uuid, true)
    {
      ws := new Session(AnonymousPrefix + uuid, true);
      active := active[connectionId := ws];
      reply := Connected(connectionId, ws.userId, ws.isAnonymous);
    }

    /** A socket's `close` or `error` event. */
    method Disconnect(connectionId: string, ws: Session)
      modifies this
      ensures active == old(active) - {connectionId}
      ensures lastRequestTimes == if ws.userId != "" then old(lastRequestTimes) - {ws.userId} else old(lastRequestTimes)
    {
      active := active - {connectionId};
      if ws.userId != "" {
        lastRequestTimes := lastRequestTimes - {ws.userId};
      }
    }

    /** An accepted request with trimmed message `text`: the time is
        recorded, the client told the message is being processed, and the answer or the failure relayed; a
        failure forgets the recorded time again. */
    method Forward(u: string, text: string, now: int, api: ApiResult) returns (replies: seq<Reply>)
      modifies this
      ensures active == old(active)
      ensures |replies| == 2 && replies[0] == Processing(StartsWith(u, AnonymousPrefix))
      ensures api.Answered? ==>
        replies[1] == ChatbotResponse(text, api.response) &&
        lastRequestTimes == old(lastRequestTimes)[u := now]
      ensures !api.Answered? ==>
        replies[1] == ChatbotError(Classify(FailureOf(api))) &&
        lastRequestTimes == old(lastRequestTimes) - {u}
    {
      var times := lastRequestTimes;
      var recorded := times[u := now];
      lastRequestTimes := recorded;
      var ack := Processing(StartsWith(u, AnonymousPrefix));
      if api.Answered? {
        replies := [ack, ChatbotResponse(text, api.response)];
      } else {
        var m := Classify(FailureOf(api));
        replies := [ack, ChatbotError(m)];
        ForgetRecorded(times, u, now);
        lastRequestTimes := recorded - {u};
      }
    }

    /** `handleChatbotRequest` once the socket has a user id `u`. */
    method Serve(u: string, message: Option<string>, now: int, api: ApiResult) returns (replies: seq<Reply>)
      modifies this
      ensures active == old(active)
      ensures BlankMessage(message) ==>
        replies == [ErrorReply(EmptyMessageMsg)] && lastRequestTimes == old(lastRequestTimes)
      ensures !BlankMessage(message) && Limited(old(lastRequestTimes), u, now) ==>
        replies == [ErrorReply(WaitMsg(WaitSeconds(now - LastRequest(old(lastRequestTimes), u))))] &&
        lastRequestTimes == old(lastRequestTimes)
      ensures !BlankMessage(message) && !Limited(old(lastRequestTimes), u, now) ==>
        |replies| == 2 && replies[0] == Processing(StartsWith(u, AnonymousPrefix)) &&
        (api.Answered? ==>
          replies[1] == ChatbotResponse(Trim(message.value), api.response) &&
          lastRequestTimes == old(lastRequestTimes)[u := now]) &&
        (!api.Answered? ==>
          replies[1] == ChatbotError(Classify(FailureOf(api))) &&
          lastRequestTimes == old(lastRequestTimes) - {u})
    {
      if BlankMessage(message) {
        return [ErrorReply(EmptyMessageMsg)];
      }
      var elapsed := now - LastRequest(lastRequestTimes, u);
      if elapsed < MinInterval {
        return [ErrorReply(WaitMsg(WaitSeconds(elapsed)))];
      }
      replies := Forward(u, Trim(message.value), now, api);
    }

    /** `handleChatbotRequest`: a socket without a user id is given the
        anonymous one built from `uuid` first. `now` is the clock reading and
        `api` what the chatbot service does with the trimmed message. */
    method Request(ws: Session, message: Option<string>, uuid: string, now: int, api: ApiResult)
        returns (replies: seq<Reply>)
      modifies this, ws
      ensures ws.userId == if old(ws.userId) == "" then AnonymousPrefix + uuid else old(ws.userId)
      ensures ws.isAnonymous == old(ws.isAnonymous) && active == old(active)
      ensures BlankMessage(message) ==>
        replies == [ErrorReply(EmptyMessageMsg)] && lastRequestTimes == old(lastRequestTimes)
      ensures !BlankMessage(message) && Limited(old(lastRequestTimes), ws.userId, now) ==>
        replies == [ErrorReply(WaitMsg(WaitSeconds(now - LastRequest(old(lastRequestTimes), ws.userId))))] &&
        lastRequestTimes == old(lastRequestTimes)
      ensures !BlankMessage(message) && !Limited(old(lastRequestTimes), ws.userId, now) ==>
        |replies| == 2 && replies[0] == Processing(StartsWith(ws.userId, AnonymousPrefix)) &&
        (api.Answered? ==>
          replies[1] == ChatbotResponse(Trim(message.value), api.response) &&
          lastRequestTimes == old(lastRequestTimes)[ws.userId := now]) &&
        (!api.Answered? ==>
          replies[1] == ChatbotError(Classify(FailureOf(api))) &&
          lastRequestTimes == old(lastRequestTimes) - {ws.userId})
    {
      if ws.userId == "" {
        ws.userId := AnonymousPrefix + uuid;
      }
      replies := Serve(ws.userId, message, now, api);
    }

    /** A socket's `message` event, after `JSON.parse`. */
    method Receive(ws: Session, frame: Incoming, uuid: string, now: int, api: ApiResult)
        returns (replies: seq<Reply>)
      modifies this, ws
      ensures frame.Unparsable? ==> replies == [ErrorReply(InvalidFormatMsg)]
      ensures frame.OtherType? ==> replies == []
      ensures !frame.ChatbotRequest? ==> active == old(active) && lastRequestTimes == old(lastRequestTimes)
      ensures frame.Unparsable? || frame.OtherType? ==> ws.userId == old(ws.userId) && ws.isAnonymous == old(ws.isAnonymous)
      ensures frame.AuthRequest? ==>
        |replies| == 1 && (replies[0] == AuthSuccess <==> Truthy(frame.userId))
      ensures frame.AuthRequest? && Truthy(frame.userId) ==> ws.userId == frame.userId.value && !ws.isAnonymous
      ensures frame.AuthRequest? && !Truthy(frame.userId) ==>
        ws.userId == old(ws.userId) && ws.isAnonymous == old(ws.isAnonymous) && replies == [AuthAnonymous(ws.userId)]
      ensures frame.ChatbotRequest? ==>
        ws.userId == (if old(ws.userId) == "" then AnonymousPrefix + uuid else old(ws.userId)) &&
        ws.isAnonymous == old(ws.isAnonymous) && active == old(active)
      ensures frame.ChatbotRequest? && BlankMessage(frame.message) ==>
        replies == [ErrorReply(EmptyMessageMsg)] && lastRequestTimes == old(lastRequestTimes)
      ensures frame.ChatbotRequest? && !BlankMessage(frame.message) && Limited(old(lastRequestTimes), ws.userId, now) ==>
        replies == [ErrorReply(WaitMsg(WaitSeconds(now - LastRequest(old(lastRequestTimes), ws.userId))))] &&
        lastRequestTimes == old(lastRequestTimes)
      ensures frame.ChatbotRequest? && !BlankMessage(frame.message) && !Limited(old(lastRequestTimes), ws.userId, now) ==>
        |replies| == 2 && replies[0] == Processing(StartsWith(ws.userId, AnonymousPrefix)) &&
        (api.Answered? ==>
          replies[1] == ChatbotResponse(Trim(frame.message.value), api.response) &&
          lastRequestTimes == old(lastRequestTimes)[ws.userId := now]) &&
        (!api.Answered? ==>
          replies[1] == ChatbotError(Classify(FailureOf(api))) &&
          lastRequestTimes == old(lastRequestTimes) - {ws.userId})
    {
      match frame
      case Unparsable =>
        replies := [ErrorReply(InvalidFormatMsg)];
      case OtherType =>
        replies := [];
      case AuthRequest(u) =>
        var reply := ws.Authenticate(u);
        replies := [reply];
      case ChatbotRequest(m) =>
        replies := Request(ws, m, uuid, now, api);
    }
  }

  /** A request accepted and answered limits its user until ten seconds have
      passed, while an accepted request whose call failed leaves the user free
      to try again at once. */
  lemma AcceptedThenLimited(times: map<string, int>, u: string, now: int, api: ApiResult, t: int)
    requires !Limited(times, u, now) && now >= MinInterval && t >= now
    ensures api.Answered? ==> (Limited(times[u := now], u, t) <==> t < now + MinInterval)
    ensures !api.Answered? ==> !Limited(times[u := now] - {u}, u, t)
  {
    RecordedLimits(times, u, now, t, u);
    ForgottenUnlimited(times[u := now], u, t, u);
  }
}
