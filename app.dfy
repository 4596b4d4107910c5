/** The POST /participants handler: a participant joins the chat room.
    The two collections are fields of a `ChatServer`; the clock reading, the
    `HH:mm:ss` formatter and the outcome of each store call are parameters. */
module App {
  import opened Body
  import opened Store

  /** HTTP status codes the handler answers with. */
  const Created := 201
  const Conflict := 409
  const UnprocessableEntity := 422
  const InternalServerError := 500

  /** The recipient that stands for everyone in the room. */
  const Everyone := "Todos"
  const JoinText := "entra na sala..."
  const StatusKind := "status"

  /** The status message announcing that `name` entered the room at `time`. */
  function JoinNotice(name: string, time: string): Message
  {
    Message(name, Everyone, JoinText, StatusKind, time)
  }

  /** Whether each of the three store calls of one request fails:
      `findOne` on participants, `insertOne` on participants, `insertOne` on messages. */
  datatype StoreFaults = StoreFaults(findOneFails: bool, insertParticipantFails: bool, insertMessageFails: bool)

  /** Both collections at one moment. */
  datatype Db = Db(participants: seq<Participant>, messages: seq<Message>)

  /** The request gets as far as inserting the participant, and that insert succeeds:
      the name is a non-empty string not yet present, and neither the lookup nor
      the participant insert fails. */
  predicate Admitted(db: Db, name: Value, faults: StoreFaults)
  {
    IsName(name) && !faults.findOneFails && name.s !in Names(db.participants)
    && !faults.insertParticipantFails
  }

  /** Appending a document under a fresh name keeps names unique. */
  lemma {:induction false} UniqueAppend(docs: seq<Participant>, p: Participant)
    requires p.name !in Names(docs)
    ensures Unique(docs) ==> Unique(docs + [p])
  {
    var all := docs + [p];
    if !Unique(docs) {
      return;
    }
    forall i, j | 0 <= i < j < |all| ensures all[i].name != all[j].name {
      assert all[i] == docs[i];
      if j < |docs| {
        assert all[j] == docs[j];
      } else {
        assert docs[i] in docs;
      }
    }
  }

  /** What one request does to the collections, step by step as the handler runs:
      the guard, the lookup, the participant insert, then the message insert.
      `now` is the single clock reading: it is the new `lastStatus` and, formatted,
      the notice's `time`. */
  function JoinEffect(db: Db, name: Value, now: int, format: int -> string, faults: StoreFaults): (after: Db)
    ensures Admitted(db, name, faults) ==>
      after.participants == db.participants + [Participant(name.s, now)]
      && after.messages == db.messages + (if faults.insertMessageFails then [] else [JoinNotice(name.s, format(now))])
    ensures !Admitted(db, name, faults) ==> after == db
    ensures Unique(db.participants) ==> Unique(after.participants)
  {
    if Rejected(name) then db
    else if faults.findOneFails then db
    else match FindOne(db.participants, name.s)
      case Some(_) => db
      case None =>
        if faults.insertParticipantFails then db
        else
          var participant := Participant(name.s, now);
          var participants := db.participants + [participant];
          UniqueAppend(db.participants, participant);
          if faults.insertMessageFails then Db(participants, db.messages)
          else Db(participants, db.messages + [JoinNotice(name.s, format(now))])
  }

  /** The status the handler as written answers with. `.then(res.sendStatus(201))`
      evaluates `res.sendStatus(201)` as soon as the message insert is started, so
      the answer is 201 whether or not that insert succeeds. */
  function JoinStatusAsWritten(db: Db, name: Value, faults: StoreFaults): (status: int)
    ensures status in {Created, Conflict, UnprocessableEntity, InternalServerError}
    ensures status == UnprocessableEntity <==> !IsName(name)
    ensures status == Conflict <==> IsName(name) && !faults.findOneFails && name.s in Names(db.participants)
    ensures status == Created <==> Admitted(db, name, faults)
  {
    if Rejected(name) then UnprocessableEntity
    else if faults.findOneFails then InternalServerError
    else if FindOne(db.participants, name.s).Some? then Conflict
    else if faults.insertParticipantFails then InternalServerError
    else Created
  }

  /** The status with the evident intent `.then(() => res.sendStatus(201))`: the
      201 waits for the message insert, and a failed message insert answers 500. */
  function JoinStatus(db: Db, name: Value, faults: StoreFaults): (status: int)
    ensures status in {Created, Conflict, UnprocessableEntity, InternalServerError}
    ensures status == UnprocessableEntity <==> !IsName(name)
    ensures status == Conflict <==> IsName(name) && !faults.findOneFails && name.s in Names(db.participants)
    ensures status == Created <==> Admitted(db, name, faults) && !faults.insertMessageFails
  {
    var early := JoinStatusAsWritten(db, name, faults);
    if early == Created && faults.insertMessageFails then InternalServerError else early
  }

  /** Finding: as written, a request can be answered 201 while its join notice was
      never stored; the participant is present and the log has not changed. */
  lemma AsWrittenCreatedWithoutNotice(db: Db, n: string, now: int, format: int -> string)
    requires n != "" && n !in Names(db.participants)
    ensures var faults := StoreFaults(false, false, true);
      var after := JoinEffect(db, Str(n), now, format, faults);
      JoinStatusAsWritten(db, Str(n), faults) == Created
      && n in Names(after.participants) && after.messages == db.messages
  {
    var faults := StoreFaults(false, false, true);
    var after := JoinEffect(db, Str(n), now, format, faults);
    assert after.participants == db.participants + [Participant(n, now)];
    assert Participant(n, now) in after.participants;
  }

  /** Corrected: the answer is 201 exactly when the log gained a message, and then
      the participant and its notice, both from the same clock reading, were stored. */
  lemma CreatedIffNoticeLogged(db: Db, name: Value, now: int, format: int -> string, faults: StoreFaults)
    ensures var after := JoinEffect(db, name, now, format, faults);
      JoinStatus(db, name, faults) == Created <==> |after.messages| > |db.messages|
    ensures var after := JoinEffect(db, name, now, format, faults);
      JoinStatus(db, name, faults) == Created ==>
        after.participants == db.participants + [Participant(name.s, now)]
        && after.messages == db.messages + [JoinNotice(name.s, format(now))]
  {
  }

  /** Even with the 201 deferred, a failed message insert is not rolled back: the
      answer is 500 while the participant stays stored without its notice. */
  lemma FailedNoticeKeepsParticipant(db: Db, name: Value, now: int, format: int -> string, faults: StoreFaults)
    requires Admitted(db, name, faults) && faults.insertMessageFails
    ensures var after := JoinEffect(db, name, now, format, faults);
      JoinStatus(db, name, faults) == InternalServerError
      && name.s in Names(after.participants) && after.messages == db.messages
  {
    var after := JoinEffect(db, name, now, format, faults);
    assert Participant(name.s, now) in after.participants;
  }

  /** Every answer of the handler as written other than 201 leaves both collections
      as they were: each of its 500s comes before the participant insert succeeds. */
  lemma ErrorsLeaveStoreUnchanged(db: Db, name: Value, now: int, format: int -> string, faults: StoreFaults)
    ensures var status := JoinStatusAsWritten(db, name, faults);
      status != Created ==> JoinEffect(db, name, now, format, faults) == db
  {
  }

  /** One request of a sequence: the `name` field and the clock reading and store
      faults it meets. */
  datatype Request = Request(name: Value, now: int, faults: StoreFaults)

  /** Requests handled one after another, each as a single sequential step. */
  function Run(db: Db, requests: seq<Request>, format: int -> string): Db
    decreases |requests|
  {
    if requests == [] then db
    else
      var r := requests[0];
      Run(JoinEffect(db, r.name, r.now, format, r.faults), requests[1..], format)
  }

  /** In a sequential run no name ever gets two participant documents, and both
      collections only grow at their ends. */
  lemma {:induction false} RunKeepsInvariants(db: Db, requests: seq<Request>, format: int -> string)
    requires Unique(db.participants)
    ensures var after := Run(db, requests, format);
      Unique(after.participants)
      && db.participants <= after.participants
      && db.messages <= after.messages
    decreases |requests|
  {
    if requests != [] {
      var r := requests[0];
      var next := JoinEffect(db, r.name, r.now, format, r.faults);
      RunKeepsInvariants(next, requests[1..], format);
    }
  }

  /** Joining twice under a fresh name with no store failure answers 201 then 409;
      the second request changes nothing and the name has exactly one document,
      holding the first request's clock reading. */
  lemma JoinTwice(db: Db, n: string, first: int, second: int, format: int -> string)
    requires n != "" && n !in Names(db.participants)
    ensures var ok := StoreFaults(false, false, false);
      var once := JoinEffect(db, Str(n), first, format, ok);
      var twice := JoinEffect(once, Str(n), second, format, ok);
      JoinStatus(db, Str(n), ok) == Created && JoinStatus(once, Str(n), ok) == Conflict
      && twice == once && CountName(twice.participants, n) == 1
      && Directory(twice.participants) == Directory(db.participants)[n := first]
  {
    var ok := StoreFaults(false, false, false);
    var p := Participant(n, first);
    var once := JoinEffect(db, Str(n), first, format, ok);
    assert once.participants == db.participants + [p];
    assert p in once.participants;
    CountPositive(db.participants, n);
    CountAppend(db.participants, p, n);
    DirectoryAppend(db.participants, p);
  }

  /** The server's state: the `participants` and `messages` collections. */
  class ChatServer {
    var participants: seq<Participant>
    var messages: seq<Message>

    function State(): Db
      reads this
    {
      Db(participants, messages)
    }

    /** No two participant documents share a name. */
    predicate Valid()
      reads this
    {
      Unique(participants)
    }

    constructor ()
      ensures Valid() && participants == [] && messages == []
    {
      participants := [];
      messages := [];
    }

    /** The handler as written. */
    method JoinAsWritten(name: Value, now: int, format: int -> string, faults: StoreFaults) returns (status: int)
      modifies this
      ensures status == JoinStatusAsWritten(old(State()), name, faults)
      ensures State() == JoinEffect(old(State()), name, now, format, faults)
      ensures old(Valid()) ==> Valid()
      ensures status == Created ==>
        Directory(participants) == old(Directory(participants))[name.s := now]
    {
      if Rejected(name) {
        return UnprocessableEntity;
      }
      var lastStatus := now;
      var newParticipant := Participant(name.s, lastStatus);
      var time := format(lastStatus);
      var newMessage := JoinNotice(name.s, time);
      if faults.findOneFails {
        return InternalServerError;
      }
      var data := FindOne(participants, name.s);
      if data.Some? {
        return Conflict;
      }
      if faults.insertParticipantFails {
        return InternalServerError;
      }
      DirectoryAppend(participants, newParticipant);
      participants := participants + [newParticipant];
      // the 201 goes out as the message insert starts, not when it completes
      status := Created;
      if !faults.insertMessageFails {
        messages := messages + [newMessage];
      }
    }

    /** The handler with the 201 deferred until the message insert succeeds. */
    method Join(name: Value, now: int, format: int -> string, faults: StoreFaults) returns (status: int)
      modifies this
      ensures status == JoinStatus(old(State()), name, faults)
      ensures State() == JoinEffect(old(State()), name, now, format, faults)
      ensures old(Valid()) ==> Valid()
      ensures status == Created ==>
        Directory(participants) == old(Directory(participants))[name.s := now]
        && messages == old(messages) + [JoinNotice(name.s, format(now))]
    {
      if Rejected(name) {
        return UnprocessableEntity;
      }
      var lastStatus := now;
      var newParticipant := Participant(name.s, lastStatus);
      var time := format(lastStatus);
      var newMessage := JoinNotice(name.s, time);
      if faults.findOneFails {
        return InternalServerError;
      }
      var data := FindOne(participants, name.s);
      if data.Some? {
        return Conflict;
      }
      if faults.insertParticipantFails {
        return InternalServerError;
      }
      DirectoryAppend(participants, newParticipant);
      participants := participants + [newParticipant];
      if faults.insertMessageFails {
        status := InternalServerError;
      } else {
        messages := messages + [newMessage];
        status := Created;
      }
    }
  }
}
