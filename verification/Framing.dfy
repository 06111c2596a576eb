/**
 ClientHandler: requests come in as frames, a length in four bytes and that many bytes of
 content; each is handled in turn and answered in the same format.
 */
module Framing {
  import opened Wrappers

  newtype byte = x: int | 0 <= x < 256

  type Bytes = seq<byte>

  const MAX_SIZE := 10 * 1024 * 1024
  const TWO_31 := 0x8000_0000
  const TWO_32 := 0x1_0000_0000

  // ---------------------------------------------------------------- lengths

  // A 32-bit integer in four bytes, the lowest first.
  function PutInt(n: nat): (b: Bytes)
    requires n < TWO_32
    ensures |b| == 4
  {
    [(n % 256) as byte, (n / 256 % 256) as byte, (n / 65536 % 256) as byte, (n / 16777216) as byte]
  }

  function GetUnsigned(b: Bytes): (n: nat)
    requires |b| == 4
    ensures n < TWO_32
  {
    b[0] as nat + b[1] as nat * 256 + b[2] as nat * 65536 + b[3] as nat * 16777216
  }

  function GetInt(b: Bytes): int
    requires |b| == 4
  {
    var n := GetUnsigned(b);
    if n < TWO_31 then n else n - TWO_32
  }

  lemma IntRoundTrip(n: nat)
    requires n < TWO_31
    ensures GetInt(PutInt(n)) == n
    ensures n < 256 ==> PutInt(n) == [n as byte, 0, 0, 0]
  {
    assert n / 65536 == n / 256 / 256 && n / 16777216 == n / 256 / 256 / 256;
  }

  function Frame(payload: Bytes): Bytes
    requires |payload| < TWO_31
  {
    PutInt(|payload|) + payload
  }

  ghost predicate AllBelow(payloads: seq<Bytes>, bound: nat) {
    forall i :: 0 <= i < |payloads| ==> |payloads[i]| < bound
  }

  function Frames(payloads: seq<Bytes>): Bytes
    requires AllBelow(payloads, TWO_31)
  {
    if payloads == [] then [] else Frame(payloads[0]) + Frames(payloads[1..])
  }

  lemma {:induction false} FramesAppend(a: seq<Bytes>, b: seq<Bytes>)
    requires AllBelow(a, TWO_31) && AllBelow(b, TWO_31)
    ensures AllBelow(a + b, TWO_31) && Frames(a + b) == Frames(a) + Frames(b)
  {
    hide Frame;
    if a == [] {
      assert a + b == b;
    } else {
      assert (a + b)[0] == a[0] && (a + b)[1..] == a[1..] + b;
      FramesAppend(a[1..], b);
      assert Frame(a[0]) + (Frames(a[1..]) + Frames(b)) == Frame(a[0]) + Frames(a[1..]) + Frames(b);
    }
  }

  // ---------------------------------------------------------------- what is read

  // A payload; a length over the maximum, after which the next four bytes are taken for a length
  // again; or a negative length, which ends the thread with an exception.
  datatype Item = Payload(content: Bytes) | TooLarge | NegativeSize

  // What is read from a stream that ends after these bytes.
  function Items(input: Bytes): seq<Item> {
    if |input| < 4 then []
    else
      var size := GetInt(input[..4]);
      if size > MAX_SIZE then [TooLarge] + Items(input[4..])
      else if size < 0 then [NegativeSize]
      else if |input| - 4 < size then []
      else [Payload(input[4..4 + size])] + Items(input[4 + size..])
  }

  function Payloads(payloads: seq<Bytes>): (items: seq<Item>)
    ensures |items| == |payloads|
  {
    seq(|payloads|, i requires 0 <= i < |payloads| => Payload(payloads[i]))
  }

  lemma FrameRead(payload: Bytes, rest: Bytes)
    requires |payload| <= MAX_SIZE
    ensures Items(Frame(payload) + rest) == [Payload(payload)] + Items(rest)
  {
    var size := PutInt(|payload|);
    IntRoundTrip(|payload|);
    hide PutInt, GetInt;
    var input := Frame(payload) + rest;
    assert input == size + (payload + rest);
    assert input[..4] == size && input[4..] == payload + rest;
    assert input[4..4 + |payload|] == payload && input[4 + |payload|..] == rest;
  }

  /** What follows a length that is too large is not skipped: the content itself is read as lengths. */
  lemma OversizeNotSkipped(payload: Bytes, rest: Bytes)
    requires 10_485_760 < |payload| < TWO_31
    ensures Items(Frame(payload) + rest) == [TooLarge] + Items(payload + rest)
  {
    IntRoundTrip(|payload|);
    hide PutInt, GetInt;
    var input := Frame(payload) + rest;
    assert input[..4] == PutInt(|payload|) && input[4..] == payload + rest;
  }

  /** Payloads of up to 10 MiB sent as frames are read as they are and in order, whatever follows them. */
  lemma {:induction false} FramesRead(payloads: seq<Bytes>, rest: Bytes)
    requires AllBelow(payloads, 10_485_761)
    ensures Items(Frames(payloads) + rest) == Payloads(payloads) + Items(rest)
  {
    hide Items, Frame;
    if payloads == [] {
      assert Frames(payloads) + rest == rest;
    } else {
      FrameRead(payloads[0], Frames(payloads[1..]) + rest);
      FramesRead(payloads[1..], rest);
      assert Frames(payloads) + rest == Frame(payloads[0]) + (Frames(payloads[1..]) + rest);
      assert Payloads(payloads) == [Payload(payloads[0])] + Payloads(payloads[1..]);
    }
  }

  // ---------------------------------------------------------------- what is answered

  datatype Command = LIST | QUERY | DELETE_DB

  // A request as far as the handler looks into it; the text of a value that is missing is None.
  datatype Request = Malformed | Request(auth: Option<string>, cmd: Option<string>, db: Option<string>, query: string)

  datatype Error =
    | INVALID_FORMAT
    | NO_COMMAND_SPECIFIED
    | UNKNOWN_COMMAND
    | NO_DATABASE_SPECIFIED
    | ERROR_READING_FROM_CLIENT

  datatype Response = GenericError(error: Error) | Confirmed | Served(command: Command, content: string)

  // What is not part of the handler: parsing, the password, the databases, and the text of a response.
  datatype Services = Services(
    parse: Bytes -> Request,
    authorize: string -> bool,
    serve: (nat, Command, Request) -> string,     // the answer to the n-th request
    encode: Response -> Bytes)

  ghost predicate ValidServices(services: Services) {
    forall r: Response :: |services.encode(r)| < TWO_31
  }

  // The response to the n-th request, or None if the client is to be refused.
  function Respond(services: Services, n: nat, request: Request, authorized: bool): Option<Response> {
    if request.Malformed? then Some(GenericError(INVALID_FORMAT))
    else if !authorized then
      if request.auth.Some? && services.authorize(request.auth.value) then Some(Confirmed) else None
    else if request.cmd.None? then Some(GenericError(NO_COMMAND_SPECIFIED))
    else if request.cmd.value == "LIST" then Some(Served(LIST, services.serve(n, LIST, request)))
    else if request.cmd.value !in ["QUERY", "DELETE_DB"] then Some(GenericError(UNKNOWN_COMMAND))
    else if request.db in [None, Some("")] then Some(GenericError(NO_DATABASE_SPECIFIED))
    else if request.cmd.value == "QUERY" then Some(Served(QUERY, services.serve(n, QUERY, request)))
    else Some(Served(DELETE_DB, services.serve(n, DELETE_DB, request)))
  }

  // The state of a conversation: the payloads handled, the responses sent, and how it stands.
  datatype Talk = Talk(handled: seq<Bytes>, sent: seq<Response>, authorized: bool, denied: bool, crashed: bool)

  function Handle(services: Services, talk: Talk, payload: Bytes): Talk {
    var response := Respond(services, |talk.handled|, services.parse(payload), talk.authorized);
    talk.(handled := talk.handled + [payload],
          sent := talk.sent + if response.Some? then [response.value] else [],
          authorized := talk.authorized || response == Some(Confirmed),
          denied := response.None?)
  }

  function Converse(services: Services, talk: Talk, items: seq<Item>): Talk
    decreases |items|
  {
    if items == [] || talk.denied || talk.crashed then talk
    else
      match items[0]
      case Payload(content) => Converse(services, Handle(services, talk, content), items[1..])
      case TooLarge =>
        Converse(services, talk.(sent := talk.sent + [GenericError(ERROR_READING_FROM_CLIENT)]), items[1..])
      case NegativeSize => talk.(crashed := true)
  }

  // The client is authorized at its i-th request: from the start, or by one of the responses before.
  ghost predicate AuthorizedAt(talk: Talk, t: Talk, i: nat)
    requires |talk.sent| + i <= |t.sent|
  {
    talk.authorized || Confirmed in t.sent[|talk.sent|..|talk.sent| + i]
  }

  // What the i-th request gets, in view of the responses before it.
  ghost function DueAt(services: Services, talk: Talk, payloads: seq<Bytes>, t: Talk, i: nat): Option<Response>
    requires i < |payloads| && |talk.sent| + i <= |t.sent|
  {
    Respond(services, |talk.handled| + i, services.parse(payloads[i]), AuthorizedAt(talk, t, i))
  }

  /**
   Every request handled is answered by one response, its own, in order; only the last one may
   be refused without a response, and then the requests after it are not handled.
   */
  ghost predicate AnsweredInOrder(services: Services, talk: Talk, payloads: seq<Bytes>, t: Talk) {
    var k, n := |t.handled| - |talk.handled|, |t.sent| - |talk.sent|;
    && 0 <= k <= |payloads| && t.handled == talk.handled + payloads[..k] && !t.crashed
    && 0 <= n == (if t.denied then k - 1 else k) && t.sent[..|talk.sent|] == talk.sent
    && (!t.denied ==> k == |payloads|)
    && (t.denied ==> DueAt(services, talk, payloads, t, n) == None)
    && (forall i :: 0 <= i < n ==> DueAt(services, talk, payloads, t, i) == Some(t.sent[|talk.sent| + i]))
  }

  lemma {:induction false} AnsweredOnce(services: Services, talk: Talk, payloads: seq<Bytes>)
    requires !talk.denied && !talk.crashed
    ensures AnsweredInOrder(services, talk, payloads, Converse(services, talk, Payloads(payloads)))
    decreases |payloads|
  {
    hide Respond;
    var t := Converse(services, talk, Payloads(payloads));
    if payloads != [] {
      var next := Handle(services, talk, payloads[0]);
      assert Payloads(payloads)[1..] == Payloads(payloads[1..]);
      assert t == Converse(services, next, Payloads(payloads[1..]));
      if next.denied {
        assert t == next && payloads[..1] == [payloads[0]];
      } else {
        AnsweredOnce(services, next, payloads[1..]);
        AnswersChain(services, talk, payloads, next, t);
      }
    }
  }

  // What is due to a request is the same whether one counts from the first request or the second.
  lemma DueLater(services: Services, talk: Talk, payloads: seq<Bytes>, next: Talk, t: Talk, i: nat)
    requires payloads != [] && next == Handle(services, talk, payloads[0]) && !next.denied
    requires |talk.sent| + 1 + i <= |t.sent| && i + 1 < |payloads| && t.sent[..|talk.sent| + 1] == next.sent
    ensures DueAt(services, next, payloads[1..], t, i) == DueAt(services, talk, payloads, t, i + 1)
  {
    hide Respond;
    var m := |talk.sent|;
    assert t.sent[m] == t.sent[..m + 1][m] == next.sent[m];
    assert t.sent[m..m + 1 + i] == [next.sent[m]] + t.sent[m + 1..m + 1 + i];
  }

  // The first response is in its place, and the others are those of the rest of the talk.
  lemma FirstDue(services: Services, talk: Talk, payloads: seq<Bytes>, next: Talk, t: Talk)
    requires payloads != [] && next == Handle(services, talk, payloads[0]) && !next.denied && !talk.denied
    requires |next.sent| <= |t.sent| && t.sent[..|next.sent|] == next.sent
    ensures |next.sent| == |talk.sent| + 1 && next.handled == talk.handled + [payloads[0]]
    ensures t.sent[..|talk.sent|] == talk.sent
    ensures DueAt(services, talk, payloads, t, 0) == Some(t.sent[|talk.sent|])
  {
    var m := |talk.sent|;
    assert next.sent[..m] == talk.sent;
    assert t.sent[m] == t.sent[..m + 1][m] && t.sent[..m] == t.sent[..m + 1][..m];
    assert t.sent[m..m] == [];
  }

  lemma AnswersChain(services: Services, talk: Talk, payloads: seq<Bytes>, next: Talk, t: Talk)
    requires payloads != [] && next == Handle(services, talk, payloads[0]) && !next.denied && !talk.denied &&
             !talk.crashed
    requires AnsweredInOrder(services, next, payloads[1..], t)
    ensures AnsweredInOrder(services, talk, payloads, t)
  {
    hide Respond, DueAt;
    FirstDue(services, talk, payloads, next, t);
    var m, n, k := |talk.sent|, |t.sent| - |talk.sent|, |t.handled| - |talk.handled|;
    assert payloads[..k] == [payloads[0]] + payloads[1..][..k - 1];
    hide Handle;
    forall i | 1 <= i < n ensures DueAt(services, talk, payloads, t, i) == Some(t.sent[m + i]) {
      DueLater(services, talk, payloads, next, t, i - 1);
    }
    if t.denied {
      DueLater(services, talk, payloads, next, t, n - 1);
    }
  }

  /**
   From bytes to answers: a client that sends payloads of up to 10 MiB as frames is answered as
   told in `AnsweredInOrder`.
   */
  lemma FramesAnswered(services: Services, talk: Talk, payloads: seq<Bytes>)
    requires AllBelow(payloads, 10_485_761) && !talk.denied && !talk.crashed
    ensures AnsweredInOrder(services, talk, payloads, Converse(services, talk, Items(Frames(payloads))))
  {
    hide Converse, AnsweredInOrder, Frames;
    FramesRead(payloads, []);
    assert Frames(payloads) + [] == Frames(payloads);
    assert Items([]) == [] && Payloads(payloads) + [] == Payloads(payloads);
    AnsweredOnce(services, talk, payloads);
  }

  // ---------------------------------------------------------------- every item

  // The contents of the payloads among these items.
  function Contents(items: seq<Item>): seq<Bytes> {
    if items == [] then []
    else Contents(items[..|items| - 1]) + if items[|items| - 1].Payload? then [items[|items| - 1].content] else []
  }

  // The response to an item tells whether that was a length over the maximum or no request at all.
  predicate IsAnswer(services: Services, item: Item, response: Response) {
    && !item.NegativeSize?
    && (response == GenericError(ERROR_READING_FROM_CLIENT) <==> item.TooLarge?)
    && (response == GenericError(INVALID_FORMAT) <==> item.Payload? && services.parse(item.content).Malformed?)
  }

  // The conversation has come to the end of these items: each got its response, but the last one
  // if that ended it.
  ghost predicate AnsweredSo(services: Services, start: Talk, t: Talk, items: seq<Item>) {
    var m, n := |start.sent|, |items| - if t.denied || t.crashed then 1 else 0;
    && 0 <= n && |t.sent| == m + n && t.sent[..m] == start.sent
    && t.handled == start.handled + Contents(items)
    && (forall i :: 0 <= i < n ==> IsAnswer(services, items[i], t.sent[m + i]))
    && (t.denied ==> items[n].Payload? && !t.crashed) && (t.crashed ==> items[n].NegativeSize?)
  }

  lemma AnsweredSoNext(services: Services, start: Talk, talk: Talk, done: seq<Item>, item: Item)
    requires AnsweredSo(services, start, talk, done) && !talk.denied && !talk.crashed
    ensures var next := match item
                        case Payload(content) => Handle(services, talk, content)
                        case TooLarge => talk.(sent := talk.sent + [GenericError(ERROR_READING_FROM_CLIENT)])
                        case NegativeSize => talk.(crashed := true);
            AnsweredSo(services, start, next, done + [item])
  {
    assert (done + [item])[..|done|] == done;
    assert talk.sent + [] == talk.sent && Contents(done) + [] == Contents(done);
  }

  lemma {:induction false} AnsweredSoOn(services: Services, start: Talk, talk: Talk, done: seq<Item>, items: seq<Item>)
    requires AnsweredSo(services, start, talk, done)
    ensures exists k | 0 <= k <= |items| ::
              var t := Converse(services, talk, items);
              AnsweredSo(services, start, t, done + items[..k]) && (t.denied || t.crashed || k == |items|)
    decreases |items|
  {
    hide AnsweredSo, Handle;
    if items == [] || talk.denied || talk.crashed {
      assert done + items[..0] == done;
    } else {
      AnsweredSoNext(services, start, talk, done, items[0]);
      var next := match items[0]
                  case Payload(content) => Handle(services, talk, content)
                  case TooLarge => talk.(sent := talk.sent + [GenericError(ERROR_READING_FROM_CLIENT)])
                  case NegativeSize => talk.(crashed := true);
      assert Converse(services, talk, items) == Converse(services, next, items[1..]);
      AnsweredSoOn(services, start, next, done + [items[0]], items[1..]);
      var k :| 0 <= k <= |items[1..]| &&
        var t := Converse(services, next, items[1..]);
        AnsweredSo(services, start, t, done + [items[0]] + items[1..][..k]) &&
        (t.denied || t.crashed || k == |items[1..]|);
      assert done + [items[0]] + items[1..][..k] == done + items[..k + 1];
    }
  }

  /**
   Whatever is read is answered item by item: a length over the maximum and a payload that is no
   request with an error of their own, until a negative length or a refusal ends the conversation.
   */
  lemma EveryItemAnswered(services: Services, talk: Talk, items: seq<Item>)
    requires !talk.denied && !talk.crashed
    ensures exists k | 0 <= k <= |items| ::
              var t := Converse(services, talk, items);
              AnsweredSo(services, talk, t, items[..k]) && (t.denied || t.crashed || k == |items|)
  {
    assert AnsweredSo(services, talk, talk, []) by {
      assert talk.handled + [] == talk.handled;
    }
    hide AnsweredSo;
    AnsweredSoOn(services, talk, talk, [], items);
    forall k | 0 <= k <= |items| ensures [] + items[..k] == items[..k] {}
  }

  // ---------------------------------------------------------------- the password

  // What only an authorized client is told.
  predicate IsPrivileged(response: Response) {
    match response
    case Served(_, _) => true
    case GenericError(error) => error in {NO_COMMAND_SPECIFIED, UNKNOWN_COMMAND, NO_DATABASE_SPECIFIED}
    case Confirmed => false
  }

  // The payload is a request that comes with an accepted password.
  predicate GivesPassword(services: Services, payload: Bytes) {
    var request := services.parse(payload);
    request.Request? && request.auth.Some? && services.authorize(request.auth.value)
  }

  ghost predicate PasswordAmong(services: Services, payloads: seq<Bytes>) {
    exists payload :: payload in payloads && GivesPassword(services, payload)
  }

  // The i-th payload is a request, and neither it nor one before it gives a password.
  ghost predicate WithoutPassword(services: Services, payloads: seq<Bytes>, i: nat) {
    i < |payloads| && services.parse(payloads[i]).Request? && !PasswordAmong(services, payloads[..i + 1])
  }

  /**
   Until a password was accepted a client is told nothing about commands and databases. It is
   confirmed exactly if a request with an accepted password was handled, and refused exactly
   by the first request without one, if none came before, which is the last that is handled.
   */
  ghost predicate Guarded(services: Services, sent: seq<Response>, handled: seq<Bytes>, denied: bool) {
    && (forall i :: 0 <= i < |sent| && IsPrivileged(sent[i]) ==> Confirmed in sent[..i])
    && (Confirmed in sent <==> PasswordAmong(services, handled))
    && (forall i :: 0 <= i < |handled| && WithoutPassword(services, handled, i) ==> denied && i == |handled| - 1)
    && (denied ==> handled != [] && WithoutPassword(services, handled, |handled| - 1))
  }

  // The conversation since it was at `start`, where the client was not authorized.
  ghost predicate GuardedSince(services: Services, start: Talk, t: Talk) {
    && |start.sent| <= |t.sent| && t.sent[..|start.sent|] == start.sent
    && |start.handled| <= |t.handled| && t.handled[..|start.handled|] == start.handled
    && (t.authorized <==> Confirmed in t.sent[|start.sent|..])
    && Guarded(services, t.sent[|start.sent|..], t.handled[|start.handled|..], t.denied)
  }

  lemma OneMoreHandled(services: Services, handled: seq<Bytes>, payload: Bytes)
    ensures PasswordAmong(services, handled + [payload]) <==>
              PasswordAmong(services, handled) || GivesPassword(services, payload)
    ensures forall i: nat :: i < |handled| ==>
              (WithoutPassword(services, handled + [payload], i) <==> WithoutPassword(services, handled, i))
    ensures WithoutPassword(services, handled + [payload], |handled|) <==>
              services.parse(payload).Request? && !PasswordAmong(services, handled + [payload])
  {
    var more := handled + [payload];
    forall i: nat | i < |handled| ensures more[..i + 1] == handled[..i + 1] && more[i] == handled[i] {}
    assert more[..|handled| + 1] == more;
    assert payload in more && forall p :: p in handled ==> p in more;
  }

  lemma SaidBefore(sent: seq<Response>, more: seq<Response>)
    requires forall i :: 0 <= i < |sent| && IsPrivileged(sent[i]) ==> Confirmed in sent[..i]
    requires Confirmed in sent || forall r :: r in more ==> !IsPrivileged(r)
    requires |more| <= 1
    ensures forall i :: 0 <= i < |sent + more| && IsPrivileged((sent + more)[i]) ==> Confirmed in (sent + more)[..i]
  {
    forall i | 0 <= i < |sent + more| && IsPrivileged((sent + more)[i]) ensures Confirmed in (sent + more)[..i] {
      assert (sent + more)[..i] == if i < |sent| then sent[..i] else sent;
      assert i >= |sent| ==> (sent + more)[i] in more;
    }
  }

  // A response when the client is authorized, and when not.
  lemma RespondGuards(services: Services, n: nat, payload: Bytes, authorized: bool)
    ensures var response := Respond(services, n, services.parse(payload), authorized);
            && (response == None <==>
                  !authorized && services.parse(payload).Request? && !GivesPassword(services, payload))
            && (response == Some(Confirmed) <==> !authorized && GivesPassword(services, payload))
            && (response.Some? && IsPrivileged(response.value) ==> authorized)
  {
  }

  lemma GuardedNext(services: Services, sent: seq<Response>, handled: seq<Bytes>, payload: Bytes,
                    response: Option<Response>)
    requires Guarded(services, sent, handled, false)
    requires response == None <==>
               Confirmed !in sent && services.parse(payload).Request? && !GivesPassword(services, payload)
    requires response == Some(Confirmed) <==> Confirmed !in sent && GivesPassword(services, payload)
    requires response.Some? && IsPrivileged(response.value) ==> Confirmed in sent
    ensures var more := if response.Some? then [response.value] else [];
            && Guarded(services, sent + more, handled + [payload], response.None?)
            && (Confirmed in sent + more <==> Confirmed in sent || response == Some(Confirmed))
  {
    var more := if response.Some? then [response.value] else [];
    OneMoreHandled(services, handled, payload);
    SaidBefore(sent, more);
    assert Confirmed in sent + more <==> Confirmed in sent || Confirmed in more;
    hide WithoutPassword, PasswordAmong, GivesPassword, IsPrivileged;
  }

  // What is appended to a sequence is appended to what it has since some point.
  lemma AppendedSince<T>(start: seq<T>, s: seq<T>, more: seq<T>)
    requires |start| <= |s| && s[..|start|] == start
    ensures var all := s + more;
            |start| <= |all| && all[..|start|] == start && all[|start|..] == s[|start|..] + more
  {
  }

  lemma HandleGuards(services: Services, start: Talk, talk: Talk, payload: Bytes)
    requires GuardedSince(services, start, talk) && !talk.denied
    ensures GuardedSince(services, start, Handle(services, talk, payload))
  {
    hide Guarded, Respond, GivesPassword, IsPrivileged;
    var response := Respond(services, |talk.handled|, services.parse(payload), talk.authorized);
    var more := if response.Some? then [response.value] else [];
    AppendedSince(start.sent, talk.sent, more);
    AppendedSince(start.handled, talk.handled, [payload]);
    RespondGuards(services, |talk.handled|, payload, talk.authorized);
    GuardedNext(services, talk.sent[|start.sent|..], talk.handled[|start.handled|..], payload, response);
  }

  lemma TooLargeGuards(services: Services, start: Talk, talk: Talk)
    requires GuardedSince(services, start, talk)
    ensures GuardedSince(services, start, talk.(sent := talk.sent + [GenericError(ERROR_READING_FROM_CLIENT)]))
  {
    var sent, more := talk.sent[|start.sent|..], [GenericError(ERROR_READING_FROM_CLIENT)];
    AppendedSince(start.sent, talk.sent, more);
    SaidBefore(sent, more);
    assert Confirmed in sent + more <==> Confirmed in sent;
    hide WithoutPassword, PasswordAmong;
  }

  lemma {:induction false} ConverseGuards(services: Services, start: Talk, talk: Talk, items: seq<Item>)
    requires GuardedSince(services, start, talk)
    ensures GuardedSince(services, start, Converse(services, talk, items))
    decreases |items|
  {
    hide GuardedSince, Handle;
    if items != [] && !talk.denied && !talk.crashed {
      match items[0]
      case Payload(content) =>
        HandleGuards(services, start, talk, content);
        ConverseGuards(services, start, Handle(services, talk, content), items[1..]);
      case TooLarge =>
        TooLargeGuards(services, start, talk);
        var next := talk.(sent := talk.sent + [GenericError(ERROR_READING_FROM_CLIENT)]);
        ConverseGuards(services, start, next, items[1..]);
      case NegativeSize =>
        assert GuardedSince(services, start, talk.(crashed := true)) by {
          Crashing(services, start, talk);
        }
    }
  }

  lemma Crashing(services: Services, start: Talk, talk: Talk)
    requires GuardedSince(services, start, talk)
    ensures GuardedSince(services, start, talk.(crashed := true))
  {
  }

  /** Nobody gets past the password, whatever is sent. */
  lemma PasswordFirst(services: Services, talk: Talk, items: seq<Item>)
    requires !talk.authorized && !talk.denied
    ensures var t := Converse(services, talk, items);
            && |talk.sent| <= |t.sent| && |talk.handled| <= |t.handled|
            && Guarded(services, t.sent[|talk.sent|..], t.handled[|talk.handled|..], t.denied)
  {
    assert talk.sent[|talk.sent|..] == [] && talk.handled[|talk.handled|..] == [];
    ConverseGuards(services, talk, talk, items);
  }

  /** Whatever is written as frames can be told apart again, also when it is longer than a request may be. */
  lemma {:induction false} FramesTellPayloads(a: seq<Bytes>, b: seq<Bytes>)
    requires AllBelow(a, TWO_31) && AllBelow(b, TWO_31) && Frames(a) == Frames(b)
    ensures a == b
  {
    assert (a == [] <==> |Frames(a)| < 4) && (b == [] <==> |Frames(b)| < 4);
    if a != [] {
      FirstFrame(a[0], Frames(a[1..]), b[0], Frames(b[1..]));
      FramesTellPayloads(a[1..], b[1..]);
      assert a == [a[0]] + a[1..] && b == [b[0]] + b[1..];
    }
  }

  lemma FirstFrame(p: Bytes, x: Bytes, q: Bytes, y: Bytes)
    requires |p| < TWO_31 && |q| < TWO_31 && Frame(p) + x == Frame(q) + y
    ensures p == q && x == y
  {
    IntRoundTrip(|p|);
    IntRoundTrip(|q|);
    hide PutInt, GetInt;
    var s, t := Frame(p) + x, Frame(q) + y;
    assert s[..4] == PutInt(|p|) && t[..4] == PutInt(|q|);
    assert s[4..4 + |p|] == p && t[4..4 + |q|] == q;
    assert s[4 + |p|..] == x && t[4 + |q|..] == y;
  }
}
