/**
 * The per-connection counter protocol of the websocket handler, as a pure
 * state machine. A connection's state is its session slot together with the
 * counter collection, abstracted as a map from session id to count. `Step`
 * is the effect of handling one inbound message; the lemmas below state what
 * each message type does.
 */
module Protocol {
  import opened Wrappers

  /** An inbound frame after parsing. `Init` carries the `sessionId` field,
      `None` when it is absent or null. */
  datatype Message =
    | Init(sessionId: Option<string>)
    | Inc
    | Dec
    | Other      // parsed, but `type` is none of "init", "inc", "dec"
    | Malformed  // the text is not JSON, or parses to `null`

  /** An outbound frame: `ready` answers `init`, `value` answers `inc`/`dec`. */
  datatype Response =
    | Ready(value: int, sessionId: string)
    | Value(value: int)

  /** The connection-local session slot and the shared counter collection. */
  datatype State = State(slot: Option<string>, counts: map<string, int>)

  /** What handling one message leaves behind: the new state, and the frame
      sent back (`None` when nothing is sent, including when the handler throws). */
  datatype Outcome = Outcome(next: State, reply: Option<Response>)

  /** JavaScript truthiness of the `sessionId` field: absent, null and the
      empty string are all falsy. */
  predicate Truthy(sid: Option<string>) {
    sid.Some? && sid.value != ""
  }

  /** The id drawn for a new session is not already a key of the collection.
      Only the `init` path that creates a session draws one. */
  predicate FreshFor(st: State, msg: Message, freshId: string) {
    msg.Init? && !Truthy(msg.sessionId) ==> freshId !in st.counts
  }

  /** A reply reports the stored count of the session in the slot, and a
      `ready` reply names that session. */
  predicate ReplyAgrees(st: State, reply: Option<Response>) {
    reply.Some? ==>
      && st.slot.Some?
      && st.slot.value in st.counts
      && reply.value.value == st.counts[st.slot.value]
      && (reply.value.Ready? ==> reply.value.sessionId == st.slot.value)
  }

  /** `inc` / `dec`: ignored while the slot is unset; otherwise an atomic
      add-and-return-new-value on the slot's record, which throws (no reply,
      nothing changed) when there is no such record. */
  function Adjust(st: State, delta: int): (o: Outcome)
    ensures o.next.slot == st.slot
    ensures o.next.counts.Keys == st.counts.Keys
    ensures ReplyAgrees(o.next, o.reply)
  {
    if st.slot.None? then Outcome(st, None)
    else if st.slot.value !in st.counts then Outcome(st, None)
    else
      var s := st.slot.value;
      var v := st.counts[s] + delta;
      Outcome(State(st.slot, st.counts[s := v]), Some(Value(v)))
  }

  /** Handling one message. `freshId` is the id a new session would get. */
  function Step(st: State, msg: Message, freshId: string): (o: Outcome)
    requires FreshFor(st, msg, freshId)
    // the only key that can appear is the freshly drawn one; none disappears
    ensures o.next.counts.Keys == st.counts.Keys || o.next.counts.Keys == st.counts.Keys + {freshId}
    // no record other than the one of the session in the new slot changes
    ensures forall k :: k in st.counts && o.next.slot != Some(k) ==> o.next.counts[k] == st.counts[k]
    // every reply tells the truth about the stored count
    ensures ReplyAgrees(o.next, o.reply)
  {
    match msg
    case Malformed => Outcome(st, None)
    case Other => Outcome(st, None)
    case Init(sid) =>
      if Truthy(sid) then
        var s := sid.value;
        // the slot is assigned before the lookup, which throws on a missing record
        if s in st.counts then Outcome(State(Some(s), st.counts), Some(Ready(st.counts[s], s)))
        else Outcome(State(Some(s), st.counts), None)
      else
        Outcome(State(Some(freshId), st.counts[freshId := 0]), Some(Ready(0, freshId)))
    case Inc => Adjust(st, 1)
    case Dec => Adjust(st, -1)
  }

  /** `inc` and `dec` before any `init`: no reply, nothing changes. */
  lemma AdjustBeforeInit(st: State, msg: Message, freshId: string)
    requires st.slot.None?
    requires msg.Inc? || msg.Dec?
    ensures Step(st, msg, freshId) == Outcome(st, None)
  {
  }

  /** `init` without a (truthy) session id creates a record with count 0 under
      the fresh id, binds the slot to it and replies `ready` with 0. */
  lemma InitCreates(st: State, sid: Option<string>, freshId: string)
    requires !Truthy(sid)
    requires freshId !in st.counts
    ensures var o := Step(st, Init(sid), freshId);
      && o.next.slot == Some(freshId)
      && o.reply == Some(Ready(0, freshId))
      && o.next.counts.Keys == st.counts.Keys + {freshId}
      && o.next.counts[freshId] == 0
      && forall k :: k in st.counts ==> o.next.counts[k] == st.counts[k]
  {
  }

  /** `init` with an existing session id replies with its stored count,
      binds the slot to it and leaves the collection alone. */
  lemma InitResumes(st: State, sid: string, freshId: string)
    requires sid != ""
    requires sid in st.counts
    ensures Step(st, Init(Some(sid)), freshId)
         == Outcome(State(Some(sid), st.counts), Some(Ready(st.counts[sid], sid)))
  {
  }

  /** `init` with an id that has no record: the slot is already bound to it
      when the lookup throws, so no reply is sent and the collection is
      unchanged; and from then on `inc` and `dec` also send nothing and create
      no record, since the update does not upsert. */
  lemma InitUnknownSession(st: State, sid: string, freshId: string, later: Message, laterId: string)
    requires sid != ""
    requires sid !in st.counts
    requires later.Inc? || later.Dec?
    ensures var o := Step(st, Init(Some(sid)), freshId);
      && o == Outcome(State(Some(sid), st.counts), None)
      && Step(o.next, later, laterId) == Outcome(o.next, None)
  {
  }

  /** Each `init` overwrites the slot with the id it resolves, whatever the
      slot held before and whether or not the lookup then succeeds. */
  lemma InitRebinds(st: State, sid: Option<string>, freshId: string)
    requires FreshFor(st, Init(sid), freshId)
    ensures Step(st, Init(sid), freshId).next.slot == Some(if Truthy(sid) then sid.value else freshId)
  {
  }

  /** On a bound session with a record, `inc` adds one and `dec` subtracts
      one, the reply carries the value after the change, and the slot and all
      other records stay as they were. */
  lemma AdjustDelta(st: State, msg: Message, freshId: string)
    requires msg.Inc? || msg.Dec?
    requires st.slot.Some? && st.slot.value in st.counts
    ensures var s := st.slot.value;
      var v := st.counts[s] + (if msg.Inc? then 1 else -1);
      Step(st, msg, freshId) == Outcome(State(st.slot, st.counts[s := v]), Some(Value(v)))
  {
  }

  /** Unparsable frames and unknown message types: no reply, nothing changes. */
  lemma IgnoredMessages(st: State, msg: Message, freshId: string)
    requires msg.Malformed? || msg.Other?
    ensures Step(st, msg, freshId) == Outcome(st, None)
  {
  }

  // ---------------------------------------------------------------------
  // Sequences of messages on one connection

  /** The change one message makes to the bound session's count. */
  function Delta(msg: Message): int {
    match msg
    case Inc => 1
    case Dec => -1
    case _ => 0
  }

  /** The change a sequence of messages makes to a bound session's count. */
  function Net(msgs: seq<Message>): int {
    if msgs == [] then 0 else Delta(msgs[0]) + Net(msgs[1..])
  }

  /** `Net` is the number of `inc` messages minus the number of `dec` messages. */
  lemma {:induction false} NetIsIncMinusDec(msgs: seq<Message>)
    ensures Net(msgs) == multiset(msgs)[Inc] as int - multiset(msgs)[Dec] as int
  {
    if msgs != [] {
      assert msgs == [msgs[0]] + msgs[1..];
      NetIsIncMinusDec(msgs[1..]);
    }
  }

  predicate NoInit(msgs: seq<Message>) {
    forall i :: 0 <= i < |msgs| ==> !msgs[i].Init?
  }

  /** The final state and the replies, one per message, of a connection that
      handles `msgs` in order (none of them an `init`, so no id is drawn). */
  datatype Trace = Trace(final: State, replies: seq<Option<Response>>)

  function Run(st: State, msgs: seq<Message>): (t: Trace)
    requires NoInit(msgs)
    ensures |t.replies| == |msgs|
    ensures t.final.slot == st.slot
    ensures t.final.counts.Keys == st.counts.Keys
    decreases |msgs|
  {
    if msgs == [] then Trace(st, [])
    else
      var o := Step(st, msgs[0], "");
      var t := Run(o.next, msgs[1..]);
      Trace(t.final, [o.reply] + t.replies)
  }

  lemma {:induction false} NetPrefix(msgs: seq<Message>, i: nat)
    requires 0 <= i < |msgs|
    ensures Net(msgs[..i+1]) == Delta(msgs[0]) + Net(msgs[1..][..i])
  {
    assert msgs[..i+1][1..] == msgs[1..][..i];
  }

  /** One non-`init` message on a bound session with a record. */
  lemma BoundStep(st: State, msg: Message)
    requires !msg.Init?
    requires st.slot.Some? && st.slot.value in st.counts
    ensures var s := st.slot.value;
      var v := st.counts[s] + Delta(msg);
      Step(st, msg, "") == Outcome(State(st.slot, st.counts[s := v]), if Delta(msg) == 0 then None else Some(Value(v)))
  {
    match msg
    case Inc => AdjustDelta(st, Inc, "");
    case Dec => AdjustDelta(st, Dec, "");
    case Other => IgnoredMessages(st, Other, "");
    case Malformed => IgnoredMessages(st, Malformed, "");
  }

  lemma NoInitTail(msgs: seq<Message>)
    requires msgs != [] && NoInit(msgs)
    ensures NoInit(msgs[1..])
  {
    forall i | 0 <= i < |msgs[1..]| ensures !msgs[1..][i].Init? {
      assert msgs[1..][i] == msgs[i + 1];
    }
  }

  /** The count a run leaves on a bound session. */
  lemma {:induction false} RunFinal(st: State, msgs: seq<Message>)
    requires NoInit(msgs)
    requires st.slot.Some? && st.slot.value in st.counts
    ensures Run(st, msgs).final.counts == st.counts[st.slot.value := st.counts[st.slot.value] + Net(msgs)]
    decreases |msgs|
  {
    if msgs != [] {
      var s := st.slot.value;
      BoundStep(st, msgs[0]);
      NoInitTail(msgs);
      var o := Step(st, msgs[0], "");
      RunFinal(o.next, msgs[1..]);
      assert o.next.counts[s := o.next.counts[s] + Net(msgs[1..])] == st.counts[s := st.counts[s] + Net(msgs)];
    }
  }

  /** The reply a run gives to its `i`-th message on a bound session. */
  lemma {:induction false} RunReplyAt(st: State, msgs: seq<Message>, i: nat)
    requires NoInit(msgs)
    requires st.slot.Some? && st.slot.value in st.counts
    requires i < |msgs|
    ensures Run(st, msgs).replies[i]
         == if Delta(msgs[i]) == 0 then None else Some(Value(st.counts[st.slot.value] + Net(msgs[..i+1])))
    decreases i
  {
    BoundStep(st, msgs[0]);
    NoInitTail(msgs);
    NetPrefix(msgs, i);
    var o := Step(st, msgs[0], "");
    if i == 0 {
      assert msgs[1..][..0] == [];
    } else {
      RunReplyAt(o.next, msgs[1..], i - 1);
      assert Run(st, msgs).replies[i] == Run(o.next, msgs[1..]).replies[i - 1];
      assert msgs[1..][i - 1] == msgs[i];
      assert msgs[1..][..i] == msgs[1..][..(i - 1) + 1];
    }
  }

  /** On a bound session, any interleaving of `inc` and `dec` (and ignored
      messages) leaves the count at its start value plus #inc - #dec, touches
      no other record, and each `inc`/`dec` is answered with the running total
      at that point. */
  lemma {:induction false} NetCount(st: State, msgs: seq<Message>)
    requires NoInit(msgs)
    requires st.slot.Some? && st.slot.value in st.counts
    ensures var s := st.slot.value;
      var t := Run(st, msgs);
      && t.final.counts == st.counts[s := st.counts[s] + Net(msgs)]
      && forall i :: 0 <= i < |msgs| ==>
           t.replies[i] == if Delta(msgs[i]) == 0 then None
                           else Some(Value(st.counts[s] + Net(msgs[..i+1])))
  {
    RunFinal(st, msgs);
    forall i | 0 <= i < |msgs|
      ensures Run(st, msgs).replies[i] == if Delta(msgs[i]) == 0 then None
                                          else Some(Value(st.counts[st.slot.value] + Net(msgs[..i+1])))
    {
      RunReplyAt(st, msgs, i);
    }
  }

  /** A fresh session, then any interleaving of n `inc` and m `dec`: the count
      is n - m, every reply is the running total, and all records that existed
      before are unchanged. */
  lemma {:induction false} FreshSessionNetCount(st: State, sid: Option<string>, freshId: string, msgs: seq<Message>)
    requires !Truthy(sid)
    requires freshId !in st.counts
    requires NoInit(msgs)
    ensures Step(st, Init(sid), freshId).reply == Some(Ready(0, freshId))
    ensures Run(Step(st, Init(sid), freshId).next, msgs).final.counts
         == st.counts[freshId := multiset(msgs)[Inc] as int - multiset(msgs)[Dec] as int]
    ensures var t := Run(Step(st, Init(sid), freshId).next, msgs);
      forall i :: 0 <= i < |msgs| && Delta(msgs[i]) != 0 ==> t.replies[i] == Some(Value(Net(msgs[..i+1])))
  {
    InitCreates(st, sid, freshId);
    var next := State(Some(freshId), st.counts[freshId := 0]);
    assert Step(st, Init(sid), freshId).next == next;
    NetCount(next, msgs);
    var t := Run(next, msgs);
    assert next.counts[freshId] == 0;
    NetIsIncMinusDec(msgs);
    assert t.final.counts == st.counts[freshId := Net(msgs)];
    forall i | 0 <= i < |msgs| && Delta(msgs[i]) != 0
      ensures t.replies[i] == Some(Value(Net(msgs[..i+1])))
    {
      assert t.replies[i] == Some(Value(next.counts[freshId] + Net(msgs[..i+1])));
    }
  }

  // ---------------------------------------------------------------------
  // Several connections sharing one collection

  /** Message `msg` arriving on connection number `conn`. */
  datatype Event = Event(conn: nat, msg: Message)

  predicate WellFormed(slots: seq<Option<string>>, events: seq<Event>) {
    forall i :: 0 <= i < |events| ==> events[i].conn < |slots| && !events[i].msg.Init?
  }

  /** The collection after the events are handled one at a time, each on its
      own connection's slot. */
  function RunShared(slots: seq<Option<string>>, counts: map<string, int>, events: seq<Event>): (c: map<string, int>)
    requires WellFormed(slots, events)
    ensures c.Keys == counts.Keys
    decreases |events|
  {
    if events == [] then counts
    else
      var e := events[0];
      RunShared(slots, Step(State(slots[e.conn], counts), e.msg, "").next.counts, events[1..])
  }

  /** #inc - #dec among the events that arrive on a connection bound to `s`. */
  function NetFor(slots: seq<Option<string>>, events: seq<Event>, s: string): int
    requires WellFormed(slots, events)
  {
    if events == [] then 0
    else
      (if slots[events[0].conn] == Some(s) then Delta(events[0].msg) else 0)
      + NetFor(slots, events[1..], s)
  }

  /** No lost update: however the `inc`/`dec` messages of several connections
      interleave, every existing record ends at its start value plus the net
      count of the messages sent on connections bound to it. */
  lemma {:induction false} SharedNetCount(slots: seq<Option<string>>, counts: map<string, int>, events: seq<Event>, s: string)
    requires WellFormed(slots, events)
    requires s in counts
    ensures RunShared(slots, counts, events)[s] == counts[s] + NetFor(slots, events, s)
    decreases |events|
  {
    if events != [] {
      var e := events[0];
      var st := State(slots[e.conn], counts);
      var next := Step(st, e.msg, "").next.counts;
      assert next[s] == counts[s] + (if slots[e.conn] == Some(s) then Delta(e.msg) else 0) by {
        if st.slot.Some? && st.slot.value in counts && (e.msg.Inc? || e.msg.Dec?) {
          AdjustDelta(st, e.msg, "");
        } else if e.msg.Other? || e.msg.Malformed? {
          IgnoredMessages(st, e.msg, "");
        }
      }
      assert WellFormed(slots, events[1..]) by {
        forall i | 0 <= i < |events[1..]| ensures events[1..][i].conn < |slots| && !events[1..][i].msg.Init? {
          assert events[1..][i] == events[i + 1];
        }
      }
      SharedNetCount(slots, next, events[1..], s);
    }
  }
}
