/** What the outbox publisher enqueues (internal/adapters/outbound/postgres/outbox_publisher.go), failures included. */
module Outbox {

  /** One encoded message on its way into the table: a row, headers that do not marshal, or an INSERT that fails. */
  datatype Outgoing<E> = Row(message: E) | BadHeaders | InsertFails

  /** One encoder's answer for the events. */
  datatype Encoding<E> = EncodeError | Encoded(messages: seq<Outgoing<E>>)

  /** How publishing ends: a program error never reached the database, a statement error did. */
  datatype Ending = Stored | ProgramError | StatementError

  /** The messages of one encoder up to the first that cannot be stored. */
  function Enqueued<E>(messages: seq<Outgoing<E>>): (seq<E>, Ending) {
    if messages == [] then ([], Stored)
    else match messages[0]
      case Row(m) => var (more, end) := Enqueued(messages[1..]); ([m] + more, end)
      case BadHeaders => ([], ProgramError)
      case InsertFails => ([], StatementError)
  }

  /** The messages of all encoders up to the first failure. */
  function Published<E>(encodings: seq<Encoding<E>>): (seq<E>, Ending) {
    if encodings == [] then ([], Stored)
    else match encodings[0]
      case EncodeError => ([], ProgramError)
      case Encoded(messages) =>
        var (first, end) := Enqueued(messages);
        if end != Stored then (first, end)
        else var (more, end') := Published(encodings[1..]); (first + more, end')
  }

  /** Every encoder encodes, and every message is stored. */
  predicate AllGood<E>(encodings: seq<Encoding<E>>) {
    forall i :: 0 <= i < |encodings| ==>
      encodings[i].Encoded? && forall j :: 0 <= j < |encodings[i].messages| ==> encodings[i].messages[j].Row?
  }

  lemma {:induction false} EnqueuesExactlyWhen<E>(messages: seq<Outgoing<E>>)
    ensures Enqueued(messages).1 == Stored <==> forall j :: 0 <= j < |messages| ==> messages[j].Row?
    ensures Enqueued(messages).1 == Stored ==> |Enqueued(messages).0| == |messages|
    decreases |messages|
  {
    if messages != [] {
      EnqueuesExactlyWhen(messages[1..]);
      assert forall j :: 0 < j < |messages| ==> messages[j] == messages[1..][j - 1];
    }
  }

  /** Publishing reports success exactly when nothing failed anywhere. */
  lemma {:induction false} PublishesExactlyWhen<E>(encodings: seq<Encoding<E>>)
    ensures Published(encodings).1 == Stored <==> AllGood(encodings)
    decreases |encodings|
  {
    if encodings != [] {
      PublishesExactlyWhen(encodings[1..]);
      if encodings[0].Encoded? {
        EnqueuesExactlyWhen(encodings[0].messages);
      }
      assert AllGood(encodings) ==> AllGood(encodings[1..]);
      assert AllGood(encodings[1..]) && encodings[0].Encoded? && (forall j :: 0 <= j < |encodings[0].messages| ==> encodings[0].messages[j].Row?)
             ==> AllGood(encodings);
    }
  }
}
