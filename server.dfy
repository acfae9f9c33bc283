/**
 * The websocket handler as the source runs it: a `Store` object standing for
 * the shared "counter" collection, and one `Connection` object per open
 * socket whose `sessionId` field is the closure variable the message handler
 * updates. `Handle` works through the same steps as the handler (assign the
 * slot, query, insert, update-and-return) and is proved to have exactly the
 * effect `Protocol.Step` describes.
 */
module Server {
  import opened Wrappers
  import opened Protocol

  /** The "counter" collection: one record per session id. */
  class Store {
    var counts: map<string, int>

    /** A collection with no records: setup for `TwoClients` only. The real
        collection persists across connections and is not empty in general. */
    constructor ()
      ensures counts == map[]
    {
      counts := map[];
    }

    /** `findOne({ sessionId })`: the record's count, `None` for no record. */
    method FindOne(sid: string) returns (doc: Option<int>)
      ensures doc.Some? <==> sid in counts
      ensures doc.Some? ==> doc.value == counts[sid]
    {
      doc := if sid in counts then Some(counts[sid]) else None;
    }

    /** `insertOne({ sessionId, count })` of an id not yet in the collection. */
    method InsertOne(sid: string, count: int)
      requires sid !in counts
      modifies this
      ensures counts == old(counts)[sid := count]
    {
      counts := counts[sid := count];
    }

    /** `findOneAndUpdate({ sessionId }, { $inc: { count: delta } }, { returnOriginal: false })`:
        adds `delta` to an existing record in one step and returns the updated
        count; without a record (no upsert) it changes nothing and returns `None`. */
    method FindOneAndUpdate(sid: string, delta: int) returns (doc: Option<int>)
      modifies this
      ensures sid in old(counts) ==>
        && counts == old(counts)[sid := old(counts)[sid] + delta]
        && doc == Some(counts[sid])
      ensures sid !in old(counts) ==> counts == old(counts) && doc == None
    {
      if sid in counts {
        counts := counts[sid := counts[sid] + delta];
        doc := Some(counts[sid]);
      } else {
        doc := None;
      }
    }
  }

  /** One open socket. */
  class Connection {
    var sessionId: Option<string>
    const store: Store

    /** On connection the slot is unset. */
    constructor (store: Store)
      ensures this.store == store && sessionId == None
    {
      this.store := store;
      sessionId := None;
    }

    function Snapshot(): State
      reads this, store
    {
      State(sessionId, store.counts)
    }

    /** Handles one inbound message; `freshId` is the value `nanoid()` would
        return. A thrown error is `None` with the changes already made kept. */
    method Handle(msg: Message, freshId: string) returns (r: Option<Response>)
      requires FreshFor(Snapshot(), msg, freshId)
      modifies this, store
      ensures Snapshot() == Step(old(Snapshot()), msg, freshId).next
      ensures r == Step(old(Snapshot()), msg, freshId).reply
    {
      r := None;
      match msg
      case Malformed =>
        return;
      case Other =>
        return;
      case Init(sid) =>
        var count: int;
        if Truthy(sid) {
          sessionId := sid;
          var doc := store.FindOne(sid.value);
          if doc.None? {
            return;  // reading `.count` of a null lookup result throws
          }
          count := doc.value;
        } else {
          sessionId := Some(freshId);
          count := 0;
          store.InsertOne(freshId, 0);
        }
        r := Some(Ready(count, sessionId.value));
      case Dec =>
        r := Update(-1);
      case Inc =>
        r := Update(1);
    }

    /** The shared body of the `inc` and `dec` cases. */
    method Update(delta: int) returns (r: Option<Response>)
      modifies store
      ensures Snapshot() == Adjust(old(Snapshot()), delta).next
      ensures r == Adjust(old(Snapshot()), delta).reply
    {
      if sessionId == None {
        return None;
      }
      var doc := store.FindOneAndUpdate(sessionId.value, delta);
      if doc.None? {
        return None;  // destructuring `doc.value` of a missing record throws
      }
      r := Some(Value(doc.value));
    }
  }

  /** The exchange of two clients on one collection: the first creates a
      session and sends `inc`, `dec`, `dec`; a second connection then resumes
      it and sees the count the first left behind. */
  method TwoClients(x: string) returns (replies: seq<Option<Response>>)
    requires x != ""
    ensures replies == [Some(Ready(0, x)), Some(Value(1)), Some(Value(0)), Some(Value(-1)), Some(Ready(-1, x))]
  {
    var store := new Store();
    var first := new Connection(store);
    var a := first.Handle(Init(None), x);
    var b := first.Handle(Inc, "");
    var c := first.Handle(Dec, "");
    var d := first.Handle(Dec, "");
    var second := new Connection(store);
    var e := second.Handle(Init(Some(x)), "");
    replies := [a, b, c, d, e];
  }
}
