/** ClientHandler in place: two states, a buffer, and the flags that end the conversation. */
module ClientHandler {
  import opened Wrappers
  import opened Framing
  import Glob

  datatype State = READING_SIZE | READING_DATA

  function Encoded(services: Services, sent: seq<Response>): (payloads: seq<Bytes>)
    ensures |payloads| == |sent| && forall i :: 0 <= i < |sent| ==> payloads[i] == services.encode(sent[i])
  {
    seq(|sent|, i requires 0 <= i < |sent| => services.encode(sent[i]))
  }

  // The name of a command in a request.
  function NameOf(command: Command): string {
    match command
    case LIST => "LIST"
    case QUERY => "QUERY"
    case DELETE_DB => "DELETE_DB"
  }

  predicate IsCommand(cmd: Option<string>) {
    cmd in {Some("LIST"), Some("QUERY"), Some("DELETE_DB")}
  }

  // Every command but the listing is about a database.
  predicate LacksDatabase(request: Request)
    requires request.Request?
  {
    request.cmd in {Some("QUERY"), Some("DELETE_DB")} && request.db in {None, Some("")}
  }

  class ClientHandler {
    const services: Services
    var input: Bytes            // sent by the client and not read yet; the stream ends after it
    var output: Bytes
    var running: bool
    var authorized: bool
    var denyAccess: bool
    var crashed: bool           // an exception has ended the thread
    var currentState: State
    var dataBuffer: Bytes       // only its size matters before it is read
    var requests: nat
    ghost var talk: Talk

    ghost predicate Valid()
      reads this
    {
      && ValidServices(services)
      && authorized == talk.authorized && denyAccess == talk.denied && crashed == talk.crashed
      && requests == |talk.handled|
      && (crashed || |dataBuffer| <= MAX_SIZE)
      && AllBelow(Encoded(services, talk.sent), TWO_31) && output == Frames(Encoded(services, talk.sent))
    }

    // What is still to be read, given the state.
    ghost function Pending(): seq<Item>
      reads this
    {
      if !running then []
      else match currentState
      case READING_SIZE => Items(input)
      case READING_DATA =>
        if |input| < |dataBuffer| then [] else [Payload(input[..|dataBuffer|])] + Items(input[|dataBuffer|..])
    }

    // How the conversation will end.
    ghost function Outcome(): Talk
      reads this
    {
      Converse(services, talk, Pending())
    }

    constructor (services: Services, input: Bytes, authRequired: bool)
      requires ValidServices(services)
      ensures Valid() && this.services == services && this.input == input && output == []
      ensures running && currentState == READING_SIZE && talk == Talk([], [], !authRequired, false, false)
    {
      this.services, this.input := services, input;
      output, running, denyAccess, crashed, authorized := [], true, false, false, !authRequired;
      currentState, dataBuffer, requests := READING_SIZE, [], 0;
      talk := Talk([], [], !authRequired, false, false);
    }

    method Send(response: Response)
      requires Valid()
      modifies this`output, this`talk
      ensures Valid() && talk == old(talk).(sent := old(talk).sent + [response])
    {
      var bytes := services.encode(response);
      output := output + PutInt(|bytes|) + bytes;
      assert Encoded(services, talk.sent + [response]) == Encoded(services, talk.sent) + [bytes];
      FramesAppend(Encoded(services, talk.sent), [bytes]);
      assert Frames([bytes]) == Frame(bytes) + [];
      talk := talk.(sent := talk.sent + [response]);
    }

    method Authorize(request: Request)
      requires Valid() && request.Request? && !authorized && !denyAccess
      modifies this`output, this`talk, this`authorized, this`denyAccess
      ensures Valid()
      ensures talk == if request.auth.Some? && services.authorize(request.auth.value)
                      then old(talk).(authorized := true, sent := old(talk).sent + [Confirmed])
                      else old(talk).(denied := true)
    {
      if request.auth.None? {
        denyAccess := true;
        talk := talk.(denied := true);
        return;
      }
      if !services.authorize(request.auth.value) {
        denyAccess := true;
        talk := talk.(denied := true);
        return;
      }
      authorized := true;
      talk := talk.(authorized := true);
      Send(Confirmed);
    }

    /**
     Answers a request of an authorized client. The service of the command that was named is
     asked, exactly if there is such a command and no database is lacking; otherwise the answer
     says what is wrong.
     */
    method Answer(request: Request, n: nat) returns (response: Response)
      requires request.Request?
      ensures Some(response) == Respond(services, n, request, true)
      ensures response.Served? <==> IsCommand(request.cmd) && !LacksDatabase(request)
      ensures response.Served? ==> request.cmd == Some(NameOf(response.command))
                                   && response.content == services.serve(n, response.command, request)
      ensures response == GenericError(NO_COMMAND_SPECIFIED) <==> request.cmd == None
      ensures response == GenericError(UNKNOWN_COMMAND) <==> request.cmd.Some? && !IsCommand(request.cmd)
      ensures response == GenericError(NO_DATABASE_SPECIFIED) <==> LacksDatabase(request)
      ensures response != Confirmed
    {
      if request.cmd.None? {
        return GenericError(NO_COMMAND_SPECIFIED);
      }
      match request.cmd.value {
        case "LIST" =>
          response := Served(LIST, services.serve(n, LIST, request));
        case "QUERY" =>
          if request.db.None? || request.db.value == "" {
            return GenericError(NO_DATABASE_SPECIFIED);
          }
          response := Served(QUERY, services.serve(n, QUERY, request));
        case "DELETE_DB" =>
          if request.db.None? || request.db.value == "" {
            return GenericError(NO_DATABASE_SPECIFIED);
          }
          response := Served(DELETE_DB, services.serve(n, DELETE_DB, request));
        case _ =>
          response := GenericError(UNKNOWN_COMMAND);
      }
    }

    /**
     A request of a client that is not authorized serves nothing but its password: with an accepted
     one it is authorized, and with none or another one refused.
     */
    method HandleRequest(payload: Bytes)
      requires Valid() && !denyAccess
      modifies this`output, this`talk, this`authorized, this`denyAccess, this`requests
      ensures Valid() && talk == Handle(services, old(talk), payload)
      ensures authorized <==> old(authorized) || GivesPassword(services, payload)
      ensures denyAccess <==>
                !old(authorized) && services.parse(payload).Request? && !GivesPassword(services, payload)
      ensures !old(authorized) ==>
                forall i :: old(|talk.sent|) <= i < |talk.sent| ==> !IsPrivileged(talk.sent[i])
    {
      var n := requests;
      requests := requests + 1;
      talk := talk.(handled := talk.handled + [payload]);
      var request := services.parse(payload);
      if request.Malformed? {
        Send(GenericError(INVALID_FORMAT));
      } else if !authorized {
        Authorize(request);
      } else {
        var response := Answer(request, n);
        Send(response);
      }
      assert talk.sent + [] == talk.sent;
    }

    // DataInputStream.readFully: all the bytes asked for, or the end of the stream.
    method ReadFully(size: nat) returns (bytes: Option<Bytes>)
      modifies this`input
      ensures if old(|input|) < size then bytes == None && input == []
              else bytes == Some(old(input)[..size]) && input == old(input)[size..]
    {
      if |input| < size {
        bytes, input := None, [];
      } else {
        bytes, input := Some(input[..size]), input[size..];
      }
    }

    method ReadClientChannel()
      requires Valid() && running && !denyAccess && !crashed
      modifies this
      ensures Valid()
      ensures Outcome() == old(Outcome())
      ensures !running || denyAccess || crashed || |input| < |old(input)|
              || (|input| == |old(input)| && old(currentState) == READING_DATA && currentState == READING_SIZE)
    {
      hide Frames, Encoded, PutInt, GetInt, Handle;
      ghost var pending := Pending();
      var bytes := ReadFully(if currentState == READING_SIZE then 4 else |dataBuffer|);
      if bytes.None? {
        running := false;
        return;
      }
      match currentState {
        case READING_SIZE =>
          var size := GetInt(bytes.value);
          if size > MAX_SIZE {
            assert pending == [TooLarge] + Items(input) && pending[1..] == Items(input);
            Send(GenericError(ERROR_READING_FROM_CLIENT));
            return;
          }
          currentState := READING_DATA;
          if size < 0 {
            assert pending == [NegativeSize];
            crashed := true;
            talk := talk.(crashed := true);
            return;
          }
          dataBuffer := seq(size, i => 0);
          if |input| >= size {
            assert input[..size] == old(input)[4..4 + size] && input[size..] == old(input)[4 + size..];
          }
          assert pending == Pending();
        case READING_DATA =>
          assert pending == [Payload(bytes.value)] + Items(input) && pending[1..] == Items(input);
          HandleRequest(bytes.value);
          currentState := READING_SIZE;
      }
    }

    /**
     The whole conversation. A client whose address is not allowed, or whose streams cannot be
     had, is left without a byte read or written; otherwise the stream is read as `Items` says
     and answered as `Converse` says.
     */
    method Run(ip: string, ipBlackList: Option<seq<string>>, ipWhiteList: Option<seq<string>>,
               engine: (string, string) -> bool, hasStreams: bool)
      requires Valid() && running && !denyAccess && !crashed
      modifies this
      ensures Valid() && output == Frames(Encoded(services, talk.sent))
      ensures if Glob.Allowed(ipBlackList, ipWhiteList, ip, engine) && hasStreams then talk == old(Outcome())
              else unchanged(this)
      ensures !old(authorized) ==>
                && old(|talk.sent|) <= |talk.sent| && old(|talk.handled|) <= |talk.handled|
                && Guarded(services, talk.sent[old(|talk.sent|)..], talk.handled[old(|talk.handled|)..], denyAccess)
    {
      hide Converse, Frames, Encoded, Glob.Allowed, Guarded;
      if !authorized {
        PasswordFirst(services, talk, Pending());
        NothingSaid(services, talk);
      }
      var allowed := Glob.IsIpAllowed(ipBlackList, ipWhiteList, ip, engine);
      if !allowed {
        return;
      }
      if !hasStreams {
        return;
      }
      while running && !denyAccess && !crashed
        invariant Valid() && Outcome() == old(Outcome())
        decreases !crashed && !denyAccess && running, |input|, currentState == READING_DATA
      {
        ReadClientChannel();
      }
      Ended(services, talk, Pending());
    }
  }

  lemma NothingSaid(services: Services, talk: Talk)
    ensures Guarded(services, talk.sent[|talk.sent|..], talk.handled[|talk.handled|..], false)
  {
  }

  lemma Ended(services: Services, talk: Talk, items: seq<Item>)
    requires items == [] || talk.denied || talk.crashed
    ensures Converse(services, talk, items) == talk
  {
  }
}
