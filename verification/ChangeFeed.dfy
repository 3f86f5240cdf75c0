/**
 The change feed: a bounded ring of numbered events, streams that read it by position and a
 one-slot wake signal. Over every interleaving of publishing and reading, a stream delivers
 exactly the accepted events after its start, in order, and never sleeps on unread events.
 */
module ChangeFeed {
  import opened Common
  import opened Bits
  import RT = ResumeToken

  type Bytes = seq<byte>

  /** One change in the feed, counted from 1. */
  datatype Event = Event(number: nat, cv: nat, db: Bytes, coll: Bytes, drop: bool, body: Bytes)

  /** What a commit hands the feed. */
  datatype Record = Record(drop: bool, body: Bytes)

  ghost predicate Numbered(p: seq<Event>) {
    forall i :: 0 <= i < |p| ==> p[i].number == i + 1
  }

  /** The newest `cap` events. */
  function Newest(p: seq<Event>, cap: nat): seq<Event> {
    if |p| > cap then p[|p| - cap..] else p
  }

  /** They are the last ones, all of them while there are no more than `cap`. */
  lemma NewestAre(p: seq<Event>, cap: nat)
    ensures |Newest(p, cap)| == (if |p| < cap then |p| else cap)
    ensures forall i :: 0 <= i < |Newest(p, cap)| ==> Newest(p, cap)[i] == p[|p| - |Newest(p, cap)| + i]
  {}

  function Numbering(head: nat, db: Bytes, coll: Bytes, recs: seq<Record>, cv: nat): seq<Event> {
    seq(|recs|, (i: nat) requires i < |recs| => Event(head + i + 1, cv, db, coll, recs[i].drop, recs[i].body))
  }

  /** The event tells of this record: where it happened, in which commit, whether it drops, and what it says. */
  predicate IsEventOf(e: Event, db: Bytes, coll: Bytes, r: Record, cv: nat) {
    e.db == db && e.coll == coll && e.cv == cv && e.drop == r.drop && e.body == r.body
  }

  lemma NumberingExtends(p: seq<Event>, db: Bytes, coll: Bytes, recs: seq<Record>, cv: nat)
    requires Numbered(p)
    ensures Numbered(p + Numbering(|p|, db, coll, recs, cv))
  {}

  /** Events after position `from`. */
  function Unread(p: seq<Event>, from: nat): seq<Event> {
    if from <= |p| then p[from..] else []
  }

  /** Whether a reader at `from` is told it fell behind; positions wrap at 64 bits. */
  predicate Missed(ring: seq<Event>, from: nat) {
    ring != [] && U64(from + 1) < ring[0].number
  }

  /** A reader is told so exactly when an event it has not read is no longer in the ring. */
  lemma MissedIffEvicted(p: seq<Event>, cap: nat, from: nat)
    requires Numbered(p) && cap > 0 && from < TWO64 - 1
    ensures Missed(Newest(p, cap), from) <==> exists i :: 0 <= i < |p| && p[i].number > from && p[i] !in Newest(p, cap)
  {
    var ring := Newest(p, cap);
    assert U64(from + 1) == from + 1;
    var cut := |p| - |ring|;
    forall i | 0 <= i < |p| ensures p[i] in ring <==> i >= cut {
      if i >= cut { assert ring[i - cut] == p[i]; }
    }
    if Missed(ring, from) {
      assert ring[0] == p[cut];
      assert p[from].number == from + 1 && p[from] !in ring;
    }
  }

  /** One stream's registration: a wake slot that holds at most one token. */
  class Subscription {
    var wake: bool
    constructor ()
      ensures !wake
    {
      wake := false;
    }
  }

  class Feed {
    const cap: nat
    var head: nat
    var ring: seq<Event>
    var subs: set<Subscription>
    ghost var published: seq<Event>

    ghost predicate Valid()
      reads this
    {
      cap > 0 && Numbered(published) && head == |published| && ring == Newest(published, cap)
    }

    constructor (cap: nat)
      requires cap > 0
      ensures Valid() && published == [] && subs == {} && this.cap == cap
    {
      this.cap := cap;
      head, ring, subs, published := 0, [], {}, [];
    }

    /** Append the records, evict from the front, and drop a token in every wake slot. */
    method Publish(db: Bytes, coll: Bytes, recs: seq<Record>, cv: nat)
      requires Valid()
      modifies this`head, this`ring, this`published, subs
      ensures Valid() && published == old(published) + Numbering(old(|published|), db, coll, recs, cv)
      ensures |published| == old(|published|) + |recs|
      ensures forall i :: 0 <= i < |recs| ==> IsEventOf(published[old(|published|) + i], db, coll, recs[i], cv)
      ensures forall s :: s in subs ==> s.wake
    {
      ghost var start := |published|;
      var grown, n := ring, head;
      for i := 0 to |recs|
        invariant n == head + i
        invariant grown == ring + Numbering(start, db, coll, recs[..i], cv)
        modifies {}
      {
        n := n + 1;
        grown := grown + [Event(n, cv, db, coll, recs[i].drop, recs[i].body)];
        assert recs[..i + 1] == recs[..i] + [recs[i]];
      }
      assert recs[..|recs|] == recs;
      ghost var more := Numbering(start, db, coll, recs, cv);
      NumberingExtends(published, db, coll, recs, cv);
      NewestAfter(published, more, cap);
      head := n;
      published := published + more;
      var over := |grown| - cap;
      ring := if over > 0 then grown[over..] else grown;
      forall s | s in subs { s.wake := true; }
    }

    method Register() returns (s: Subscription, at: nat)
      requires Valid()
      modifies this`subs
      ensures Valid() && fresh(s) && !s.wake && subs == old(subs) + {s} && at == |published|
    {
      s := new Subscription();
      subs := subs + {s};
      at := head;
    }

    method Unregister(s: Subscription)
      requires Valid()
      modifies this`subs
      ensures Valid() && subs == old(subs) - {s}
    {
      subs := subs - {s};
    }

    /** The buffered events after `from`, or word that some were evicted unread. */
    method Since(from: nat) returns (evs: seq<Event>, missed: bool)
      requires Valid() && IsU64(from)
      ensures missed == Missed(Newest(published, cap), from)
      ensures evs == if missed then [] else Unread(published, from)
    {
      evs := [];
      if |ring| == 0 { return [], false; }
      if U64(from + 1) < ring[0].number { return [], true; }
      ghost var cut := |published| - |ring|;
      assert ring[0] == published[cut];
      for i := 0 to |ring|
        invariant evs == if from < cut + i then published[from..cut + i] else []
      {
        assert ring[i] == published[cut + i];
        if ring[i].number > from { evs := evs + [ring[i]]; }
      }
      return evs, false;
    }
  }

  /** Appending then trimming the ring is trimming the whole history. */
  lemma NewestAfter(p: seq<Event>, more: seq<Event>, cap: nat)
    ensures Newest(Newest(p, cap) + more, cap) == Newest(p + more, cap)
  {}

  // ---- streams -----------------------------------------------------------------------------

  /** Where a stream's reader is: about to look, holding what it saw, or asleep. */
  datatype Phase = Ready | Holding(evs: seq<Event>) | Waiting

  datatype Stream = Stream(
    start: nat, next: nat, phase: Phase, wake: bool,
    invalid: bool, done: bool, failed: bool,
    accepts: Event -> bool,        // scope and pipeline
    single: bool,                  // watches one collection, which a drop ends
    delivered: seq<Event>)

  function Accepted(accepts: Event -> bool, evs: seq<Event>): seq<Event> {
    if evs == [] then []
    else Accepted(accepts, evs[..|evs| - 1]) + if accepts(evs[|evs| - 1]) then [evs[|evs| - 1]] else []
  }

  lemma {:induction false} AcceptedJoin(accepts: Event -> bool, a: seq<Event>, b: seq<Event>)
    ensures Accepted(accepts, a + b) == Accepted(accepts, a) + Accepted(accepts, b)
    decreases |b|
  {
    if b == [] {
      assert a + b == a;
    } else {
      assert (a + b)[..|a + b| - 1] == a + b[..|b| - 1];
      AcceptedJoin(accepts, a, b[..|b| - 1]);
    }
  }

  /** Position of the first accepted event, or the length. */
  function FirstAccepted(accepts: Event -> bool, evs: seq<Event>): (i: nat)
    ensures i <= |evs| && (i < |evs| ==> accepts(evs[i]))
    ensures forall j :: 0 <= j < i ==> !accepts(evs[j])
  {
    if evs == [] || accepts(evs[0]) then 0 else 1 + FirstAccepted(accepts, evs[1..])
  }

  lemma {:induction false} AcceptedNone(accepts: Event -> bool, evs: seq<Event>)
    requires forall j :: 0 <= j < |evs| ==> !accepts(evs[j])
    ensures Accepted(accepts, evs) == []
  {
    if evs != [] { AcceptedNone(accepts, evs[..|evs| - 1]); }
  }

  /** The stream after going through what it holds: stopped at the first accepted event, or at the end. */
  function Consumed(s: Stream, block: bool): Stream
    requires s.phase.Holding?
  {
    var evs := s.phase.evs;
    var i := FirstAccepted(s.accepts, evs);
    if i < |evs| then
      s.(next := evs[i].number, phase := Ready, delivered := s.delivered + [evs[i]],
         invalid := s.invalid || (evs[i].drop && s.single))
    else
      s.(next := if evs == [] then s.next else evs[|evs| - 1].number, phase := if block then Waiting else Ready)
  }

  /** The scan loop over the events it was handed. */
  method Scan(accepts: Event -> bool, next: nat, evs: seq<Event>) returns (next': nat, hit: Option<Event>)
    ensures var i := FirstAccepted(accepts, evs);
            && hit == (if i < |evs| then Some(evs[i]) else None)
            && next' == (if i < |evs| then evs[i].number else if evs == [] then next else evs[|evs| - 1].number)
  {
    next' := next;
    for i := 0 to |evs|
      invariant next' == if i == 0 then next else evs[i - 1].number
      invariant forall j :: 0 <= j < i ==> !accepts(evs[j])
    {
      next' := evs[i].number;
      if accepts(evs[i]) {
        return next', Some(evs[i]);
      }
    }
    hit := None;
  }

  // ---- every interleaving -------------------------------------------------------------------

  datatype World = World(published: seq<Event>, cap: nat, streams: map<nat, Stream>)

  datatype Step =
    | Publish(db: Bytes, coll: Bytes, recs: seq<Record>, cv: nat)
    | Open(id: nat, accepts: Event -> bool, single: bool, token: Option<Bytes>)   // now, or after a token
    | Poll(id: nat)                     // read the ring
    | Consume(id: nat, block: bool)     // go through what was read; sleep if nothing was accepted
    | Wake(id: nat)                     // take the token from the wake slot
    | Invalidate(id: nat)               // deliver the terminal event
    | Cancel(id: nat)                   // the caller's context ends
    | Close(id: nat)

  predicate Active(s: Stream) { !s.done && !s.failed }

  function Woken(s: Stream): Stream { s.(wake := true) }

  /** The position a stream starts after: the newest event, or the one its token names. */
  function StartOf(p: seq<Event>, token: Option<Bytes>): Option<nat> {
    match token case None => Some(|p|) case Some(tok) => RT.DecodeToken(tok)
  }

  function Opened(from: nat, accepts: Event -> bool, single: bool): Stream {
    Stream(from, from, Ready, false, false, false, false, accepts, single, [])
  }

  ghost predicate Next(w: World, step: Step, w': World) {
    match step
    case Publish(db, coll, recs, cv) =>
      w' == w.(published := w.published + Numbering(|w.published|, db, coll, recs, cv),
               streams := map id | id in w.streams :: Woken(w.streams[id]))
    case Open(id, accepts, single, token) =>
      id !in w.streams
      && var from := StartOf(w.published, token);
         w' == if from.None? then w else w.(streams := w.streams[id := Opened(from.value, accepts, single)])
    case Poll(id) =>
      id in w.streams
      && var s := w.streams[id];
         Active(s) && s.phase.Ready? && !s.invalid
         && w' == w.(streams := w.streams[id :=
              if Missed(Newest(w.published, w.cap), s.next) then s.(failed := true)
              else s.(phase := Holding(Unread(w.published, s.next)))])
    case Consume(id, block) =>
      id in w.streams && w.streams[id].phase.Holding? && Active(w.streams[id])
      && w' == w.(streams := w.streams[id := Consumed(w.streams[id], block)])
    case Wake(id) =>
      id in w.streams
      && var s := w.streams[id];
         Active(s) && s.phase.Waiting? && s.wake
             && w' == w.(streams := w.streams[id := s.(wake := false, phase := Ready)])
    case Invalidate(id) =>
      id in w.streams
      && var s := w.streams[id];
         Active(s) && s.phase.Ready? && s.invalid
             && w' == w.(streams := w.streams[id := s.(invalid := false, done := true)])
    case Cancel(id) =>
      id in w.streams && Active(w.streams[id]) && w' == w.(streams := w.streams[id := w.streams[id].(failed := true)])
    case Close(id) =>
      id in w.streams && w' == w.(streams := w.streams - {id})
  }

  /** Events numbered above `a` up to `b`. */
  function Between(p: seq<Event>, a: nat, b: nat): seq<Event> {
    var lo, hi := if a < |p| then a else |p|, if b < |p| then b else |p|;
    if lo <= hi then p[lo..hi] else []
  }

  /** What a stream has delivered, and what it still knows of the rest. */
  ghost predicate StreamOk(p: seq<Event>, s: Stream) {
    && s.start <= s.next && (s.next <= |p| || s.next == s.start)
    && s.delivered == Accepted(s.accepts, Between(p, s.start, s.next))
    && (s.phase.Holding? ==> s.phase.evs <= Unread(p, s.next) && (|s.phase.evs| < |Unread(p, s.next)| ==> s.wake))
    && (s.phase.Waiting? ==> (Unread(p, s.next) != [] ==> s.wake))
  }

  /** A single-collection stream ends with the first drop it delivers, and only so. */
  ghost predicate EndsAtDrop(s: Stream) {
    && (s.invalid || s.done ==> s.single && s.delivered != [] && s.delivered[|s.delivered| - 1].drop)
    && (s.single ==> forall j :: 0 <= j < |s.delivered| && s.delivered[j].drop
                                 ==> j == |s.delivered| - 1 && (s.invalid || s.done))
    && (s.invalid ==> s.phase.Ready?) && (s.done ==> !s.phase.Holding?)
  }

  ghost predicate Inv(w: World) {
    && w.cap > 0 && Numbered(w.published)
    && (forall id :: id in w.streams ==> StreamOk(w.published, w.streams[id]) && EndsAtDrop(w.streams[id]))
  }

  lemma PublishOk(p: seq<Event>, more: seq<Event>, s: Stream)
    requires StreamOk(p, s) && Numbered(p + more)
    requires s.next <= |p| || s.next == s.start
    ensures s.next <= |p| || Between(p + more, s.start, s.next) == [] ==> StreamOk(p + more, Woken(s))
  {
    if s.next <= |p| {
      assert Between(p + more, s.start, s.next) == Between(p, s.start, s.next);
      assert Unread(p, s.next) <= Unread(p + more, s.next);
    } else {
      assert Between(p, s.start, s.next) == [];
    }
  }

  lemma StartNothing(p: seq<Event>, a: nat)
    ensures Between(p, a, a) == []
  {}

  /** Moving the position over the first `n` of the events held. */
  lemma ReadAhead(p: seq<Event>, start: nat, next: nat, evs: seq<Event>, n: nat)
    requires evs <= Unread(p, next) && n <= |evs| && start <= next && evs != []
    ensures next + n <= |p| && Between(p, start, next + n) == Between(p, start, next) + evs[..n]
    ensures Unread(p, next + n) == Unread(p, next)[n..]
  {
    assert evs[..n] == Unread(p, next)[..n];
  }

  /** Up to and including the first accepted event, that event alone is accepted. */
  lemma AcceptedUpTo(accepts: Event -> bool, evs: seq<Event>, i: nat)
    requires i == FirstAccepted(accepts, evs)
    ensures Accepted(accepts, evs[..i]) == []
    ensures i < |evs| ==> Accepted(accepts, evs[..i + 1]) == [evs[i]]
  {
    AcceptedNone(accepts, evs[..i]);
    if i < |evs| { assert evs[..i + 1][..i] == evs[..i]; }
  }

  /** The stream's record after its position moved over `n` held events. */
  lemma MovedOver(p: seq<Event>, s: Stream, n: nat)
    requires Numbered(p) && StreamOk(p, s) && s.phase.Holding? && 0 < n <= |s.phase.evs|
    ensures s.next + n <= |p| && s.phase.evs[n - 1].number == s.next + n
    ensures Accepted(s.accepts, Between(p, s.start, s.next + n)) == s.delivered + Accepted(s.accepts, s.phase.evs[..n])
    ensures n == |s.phase.evs| && Unread(p, s.next + n) != [] ==> s.wake
  {
    hide Accepted;
    var evs := s.phase.evs;
    ReadAhead(p, s.start, s.next, evs, n);
    assert evs[n - 1] == Unread(p, s.next)[n - 1];
    AcceptedJoin(s.accepts, Between(p, s.start, s.next), evs[..n]);
  }

  lemma HitOk(p: seq<Event>, s: Stream, i: nat, s': Stream)
    requires Numbered(p) && StreamOk(p, s) && s.phase.Holding? && i < |s.phase.evs|
             && i == FirstAccepted(s.accepts, s.phase.evs)
    requires s'.start == s.start && s'.accepts == s.accepts && s'.phase == Ready
    requires s'.next == s.phase.evs[i].number && s'.delivered == s.delivered + [s.phase.evs[i]]
    ensures StreamOk(p, s')
  {
    hide Accepted, Between, Numbered, FirstAccepted;
    AcceptedUpTo(s.accepts, s.phase.evs, i);
    MovedOver(p, s, i + 1);
  }

  lemma MissOk(p: seq<Event>, s: Stream, s': Stream)
    requires Numbered(p) && StreamOk(p, s) && s.phase.Holding? && |s.phase.evs| == FirstAccepted(s.accepts, s.phase.evs)
    requires s'.start == s.start && s'.accepts == s.accepts && !s'.phase.Holding? && s'.wake == s.wake
             && s'.delivered == s.delivered
    requires s'.next == if s.phase.evs == [] then s.next else s.phase.evs[|s.phase.evs| - 1].number
    ensures StreamOk(p, s')
  {
    hide Accepted, Between, Numbered, FirstAccepted;
    var evs := s.phase.evs;
    AcceptedUpTo(s.accepts, evs, |evs|);
    if evs != [] {
      MovedOver(p, s, |evs|);
      assert evs[..|evs|] == evs;
      assert s.delivered + [] == s.delivered;
    }
  }

  lemma ConsumeOk(p: seq<Event>, s: Stream, block: bool)
    requires Numbered(p) && StreamOk(p, s) && s.phase.Holding?
    ensures StreamOk(p, Consumed(s, block))
  {
    hide StreamOk, Numbered;
    var i := FirstAccepted(s.accepts, s.phase.evs);
    if i < |s.phase.evs| {
      HitOk(p, s, i, Consumed(s, block));
    } else {
      MissOk(p, s, Consumed(s, block));
    }
  }

  lemma ConsumeEnds(s: Stream, block: bool)
    requires EndsAtDrop(s) && s.phase.Holding?
    ensures EndsAtDrop(Consumed(s, block))
  {}

  lemma PublishInv(w: World, db: Bytes, coll: Bytes, recs: seq<Record>, cv: nat, w': World)
    requires Inv(w) && Next(w, Publish(db, coll, recs, cv), w')
    ensures Inv(w')
  {
    hide Accepted, Between, Numbering, StreamOk, EndsAtDrop;
    NumberingExtends(w.published, db, coll, recs, cv);
    forall id | id in w'.streams ensures StreamOk(w'.published, w'.streams[id]) && EndsAtDrop(w'.streams[id]) {
      PublishStream(w.published, Numbering(|w.published|, db, coll, recs, cv), w.streams[id]);
    }
  }

  lemma PublishStream(p: seq<Event>, more: seq<Event>, s: Stream)
    requires StreamOk(p, s) && Numbered(p + more) && EndsAtDrop(s)
    ensures StreamOk(p + more, Woken(s)) && EndsAtDrop(Woken(s))
  {
    hide Accepted, Between;
    if s.next > |p| { StartNothing(p + more, s.start); StartNothing(p, s.start); }
    PublishOk(p, more, s);
  }

  lemma OpenOk(p: seq<Event>, from: nat, accepts: Event -> bool, single: bool)
    ensures StreamOk(p, Opened(from, accepts, single)) && EndsAtDrop(Opened(from, accepts, single))
  {
    StartNothing(p, from);
    NoneAccepted(accepts);
  }

  lemma PollInv(w: World, id: nat, w': World)
    requires Inv(w) && Next(w, Poll(id), w')
    ensures Inv(w')
  {
    hide Accepted, Between, Missed, Newest;
  }

  lemma StepInv(w: World, step: Step, w': World)
    requires Inv(w) && Next(w, step, w')
    ensures Inv(w')
  {
    hide Consumed, Accepted, Between, Numbering, Missed, Newest, StartOf;
    match step
    case Publish(db, coll, recs, cv) => hide Inv, Next; PublishInv(w, db, coll, recs, cv, w');
    case Poll(id) => PollInv(w, id, w');
    case Open(id, accepts, single, token) =>
      hide StreamOk, EndsAtDrop;
      if StartOf(w.published, token).Some? { OpenOk(w.published, StartOf(w.published, token).value, accepts, single); }
    case Consume(id, block) =>
      hide StreamOk, EndsAtDrop;
      ConsumeOk(w.published, w.streams[id], block);
      ConsumeEnds(w.streams[id], block);
    case _ =>
  }

  lemma NoneAccepted(accepts: Event -> bool)
    ensures Accepted(accepts, []) == []
  {}

  /** A run: an empty feed of any capacity, then any steps in any order. */
  ghost predicate Run(states: seq<World>, steps: seq<Step>) {
    && |states| == |steps| + 1
    && states[0].cap > 0 && states[0].published == [] && states[0].streams == map[]
    && (forall i :: 0 <= i < |steps| ==> Next(states[i], steps[i], states[i + 1]))
  }

  lemma {:induction false} RunInv(states: seq<World>, steps: seq<Step>, i: nat)
    requires Run(states, steps) && i < |states|
    ensures Inv(states[i])
  {
    hide Next;
    if i > 0 {
      RunInv(states, steps, i - 1);
      StepInv(states[i - 1], steps[i - 1], states[i]);
    }
  }

  /**
   At any moment a stream has delivered precisely the accepted events from its start to its position,
   each once, in order.
   */
  lemma DeliversExactlyOnce(states: seq<World>, steps: seq<Step>, i: nat, id: nat)
    requires Run(states, steps) && i < |states| && id in states[i].streams
    ensures var s := states[i].streams[id];
            s.delivered == Accepted(s.accepts, Between(states[i].published, s.start, s.next))
  {
    hide Next, Accepted, Between;
    RunInv(states, steps, i);
  }

  /** A stream is ended by an invalidate event exactly when the last event it delivered dropped its collection. */
  lemma EndsExactlyAtDrop(states: seq<World>, steps: seq<Step>, i: nat, id: nat)
    requires Run(states, steps) && i < |states| && id in states[i].streams
    ensures var s := states[i].streams[id];
            && (s.invalid || s.done <==> s.single && s.delivered != [] && s.delivered[|s.delivered| - 1].drop)
            && (s.single ==> forall j :: 0 <= j < |s.delivered| - 1 ==> !s.delivered[j].drop)
  {
    hide Next, StreamOk;
    RunInv(states, steps, i);
    assert EndsAtDrop(states[i].streams[id]);
  }

  /** No lost wakeup: a stream asleep with an empty wake slot has delivered every accepted event there is. */
  lemma NoLostWakeup(states: seq<World>, steps: seq<Step>, i: nat, id: nat)
    requires Run(states, steps) && i < |states| && id in states[i].streams
    requires states[i].streams[id].phase.Waiting? && !states[i].streams[id].wake
    ensures var s := states[i].streams[id];
            Unread(states[i].published, s.next) == []
                && s.delivered == Accepted(s.accepts, Unread(states[i].published, s.start))
  {
    hide Next, Accepted;
    RunInv(states, steps, i);
    var p, s := states[i].published, states[i].streams[id];
    assert StreamOk(p, s);
    assert Between(p, s.start, s.next) == Unread(p, s.start);
  }

  /** Every record published in a run is in the feed from then on, at its number and with all it said. */
  lemma EventsCarryRecords(states: seq<World>, steps: seq<Step>, m: nat, i: nat, j: nat)
    requires Run(states, steps) && m < i < |states| && steps[m].Publish? && j < |steps[m].recs|
    ensures var n := |states[m].published| + j; var st := steps[m];
            n < |states[i].published| && states[i].published[n].number == n + 1
            && IsEventOf(states[i].published[n], st.db, st.coll, st.recs[j], st.cv)
  {
    assert Next(states[m], steps[m], states[m + 1]);
    hide Next, StreamOk, EndsAtDrop;
    PublishedGrows(states, steps, m + 1, i);
    RunInv(states, steps, i);
  }

  /**
   Reading the ring fails exactly when an event the stream has not read is no longer there. Only at
   the last 64-bit position, where the code's addition wraps, does it fail on any event at all.
   */
  lemma PollFailsIff(states: seq<World>, steps: seq<Step>, i: nat, id: nat)
    requires Run(states, steps) && i < |steps| && steps[i] == Poll(id)
    requires id in states[i].streams ==> IsU64(states[i].streams[id].next)
    ensures id in states[i].streams && id in states[i + 1].streams
    ensures var p, s := states[i].published, states[i].streams[id];
            states[i + 1].streams[id].failed <==>
              if s.next == TWO64 - 1 then p != []
              else exists e :: e in Unread(p, s.next) && e !in Newest(p, states[i].cap)
  {
    assert Next(states[i], steps[i], states[i + 1]);
    RunInv(states, steps, i);
    var p, cap, from := states[i].published, states[i].cap, states[i].streams[id].next;
    PollMisses(states[i], id, states[i + 1]);
    hide Next, StreamOk, EndsAtDrop;
    if from == TWO64 - 1 {
      LastPositionMisses(p, cap);
    } else {
      EvictedUnread(p, cap, from);
    }
  }

  lemma PollMisses(w: World, id: nat, w': World)
    requires Next(w, Poll(id), w')
    ensures id in w.streams && id in w'.streams
    ensures w'.streams[id].failed <==> Missed(Newest(w.published, w.cap), w.streams[id].next)
  {
    hide Missed, Newest;
  }

  lemma LastPositionMisses(p: seq<Event>, cap: nat)
    requires Numbered(p) && cap > 0
    ensures Missed(Newest(p, cap), TWO64 - 1) <==> p != []
  {
    assert U64(TWO64) == 0;
    if p != [] { assert Newest(p, cap)[0] in p; }
  }

  lemma EvictedUnread(p: seq<Event>, cap: nat, from: nat)
    requires Numbered(p) && cap > 0 && from < TWO64 - 1
    ensures Missed(Newest(p, cap), from) <==> exists e :: e in Unread(p, from) && e !in Newest(p, cap)
  {
    MissedIffEvicted(p, cap, from);
    hide Missed, Newest;
    if j :| 0 <= j < |p| && p[j].number > from && p[j] !in Newest(p, cap) {
      assert Unread(p, from)[j - from] == p[j];
    }
    if e :| e in Unread(p, from) && e !in Newest(p, cap) {
      var j :| 0 <= j < |Unread(p, from)| && Unread(p, from)[j] == e;
      assert p[from + j] == e;
    }
  }

  // ---- resuming ---------------------------------------------------------------------------------

  /** Publishing only adds events. */
  lemma {:induction false} PublishedGrows(states: seq<World>, steps: seq<Step>, i: nat, j: nat)
    requires Run(states, steps) && i <= j < |states|
    ensures states[i].published <= states[j].published
    decreases j
  {
    if i < j {
      PublishedGrows(states, steps, i, j - 1);
      assert Next(states[j - 1], steps[j - 1], states[j]);
    }
  }

  /** A stream that stays open keeps its start and its filter. */
  lemma {:induction false} StartStays(states: seq<World>, steps: seq<Step>, k: nat, j: nat, id: nat)
    requires Run(states, steps) && k <= j < |states| && forall m :: k <= m <= j ==> id in states[m].streams
    ensures states[j].streams[id].start == states[k].streams[id].start
    ensures states[j].streams[id].accepts == states[k].streams[id].accepts
    decreases j
  {
    if k < j {
      StartStays(states, steps, k, j - 1, id);
      StepKeepsStart(states[j - 1], steps[j - 1], states[j], id);
    }
  }

  lemma StepKeepsStart(w: World, step: Step, w': World, id: nat)
    requires Next(w, step, w') && id in w.streams && id in w'.streams
    ensures w'.streams[id].start == w.streams[id].start && w'.streams[id].accepts == w.streams[id].accepts
  {
    hide Missed, Newest, Unread, FirstAccepted, StartOf, Numbering;
  }

  /** Of consecutive events, those accepted up to a delivered one are the deliveries up to it. */
  lemma {:induction false} AcceptedPrefix(accepts: Event -> bool, evs: seq<Event>, base: nat, q: nat)
    requires (forall i :: 0 <= i < |evs| ==> evs[i].number == base + i + 1) && q < |Accepted(accepts, evs)|
    ensures var n := Accepted(accepts, evs)[q].number;
            base < n <= base + |evs| && Accepted(accepts, evs[..n - base]) == Accepted(accepts, evs)[..q + 1]
    decreases |evs|
  {
    var head := evs[..|evs| - 1];
    if q < |Accepted(accepts, head)| {
      AcceptedPrefix(accepts, head, base, q);
      var n := Accepted(accepts, head)[q].number;
      assert evs[..n - base] == head[..n - base];
    } else {
      assert evs[..|evs|] == evs;
    }
  }

  lemma BetweenNumbered(p: seq<Event>, a: nat, b: nat)
    requires Numbered(p)
    ensures forall i :: 0 <= i < |Between(p, a, b)| ==> Between(p, a, b)[i].number == a + i + 1
  {
    forall i | 0 <= i < |Between(p, a, b)| ensures Between(p, a, b)[i].number == a + i + 1 {
      assert Between(p, a, b)[i] == p[a + i];
    }
  }

  lemma DeliveredPrefix(p: seq<Event>, s: Stream, q: nat)
    requires Numbered(p) && StreamOk(p, s) && q < |s.delivered|
    ensures s.start < s.delivered[q].number <= |p|
    ensures s.delivered[..q + 1] == Accepted(s.accepts, Between(p, s.start, s.delivered[q].number))
  {
    hide Accepted, Numbered;
    var evs := Between(p, s.start, s.next);
    NoneAccepted(s.accepts);
    BetweenNumbered(p, s.start, s.next);
    AcceptedPrefix(s.accepts, evs, s.start, q);
    var n := s.delivered[q].number;
    assert evs[..n - s.start] == Between(p, s.start, n);
  }

  /**
   Resuming: a stream opened with the token of an event that an earlier stream delivered, under the
   same filter, goes on exactly where that event left off. What the first delivered up to the event
   and all the second has delivered are the accepted events in between, without gap or repeat.
   */
  lemma ResumeContinues(states: seq<World>, steps: seq<Step>, i: nat, a: nat, q: nat, k: nat, b: nat, single: bool,
                        j: nat)
    requires Run(states, steps) && i <= k < j < |states|
    requires a in states[i].streams && q < |states[i].streams[a].delivered|
    requires var s := states[i].streams[a];
             IsU64(s.delivered[q].number) &&
             steps[k] == Open(b, s.accepts, single, Some(RT.EncodeToken(s.delivered[q].number)))
    requires forall m :: k < m <= j ==> b in states[m].streams
    ensures var s, d := states[i].streams[a], states[j].streams[b];
            && s.start < d.start == s.delivered[q].number <= d.next
            && s.delivered[..q + 1] + d.delivered == Accepted(s.accepts, Between(states[j].published, s.start, d.next))
  {
    hide Accepted, Between, StreamOk, EndsAtDrop, RT.EncodeToken, RT.DecodeToken;
    var s, n := states[i].streams[a], states[i].streams[a].delivered[q].number;
    RT.TokenRoundTrip(n);
    assert Next(states[k], steps[k], states[k + 1]);
    assert states[k + 1].streams[b] == Opened(n, s.accepts, single);
    hide Next;
    StartStays(states, steps, k + 1, j, b);
    RunInv(states, steps, i);
    RunInv(states, steps, j);
    PublishedGrows(states, steps, i, j);
    JoinsUp(states[i].published, s, q, states[j].published, states[j].streams[b]);
  }

  /** A stream opened without a token delivers the accepted events published after it opened, and no earlier one. */
  lemma OpensNow(states: seq<World>, steps: seq<Step>, k: nat, id: nat, accepts: Event -> bool, single: bool, j: nat)
    requires Run(states, steps) && k < j < |states| && steps[k] == Open(id, accepts, single, None)
    requires forall m :: k < m <= j ==> id in states[m].streams
    ensures var d, from := states[j].streams[id], |states[k].published|;
            && from <= d.next <= |states[j].published|
            && d.delivered == Accepted(accepts, states[j].published[from..d.next])
  {
    hide Accepted, StreamOk, EndsAtDrop;
    assert Next(states[k], steps[k], states[k + 1]);
    assert states[k + 1].streams[id] == Opened(|states[k].published|, accepts, single);
    hide Next;
    StartStays(states, steps, k + 1, j, id);
    RunInv(states, steps, j);
    PublishedGrows(states, steps, k, j);
    StreamReads(states[j].published, states[j].streams[id]);
  }

  lemma StreamReads(p: seq<Event>, s: Stream)
    requires StreamOk(p, s) && s.start <= |p|
    ensures s.start <= s.next <= |p| && s.delivered == Accepted(s.accepts, p[s.start..s.next])
  {
    hide Accepted;
  }

  lemma JoinsUp(p: seq<Event>, s: Stream, q: nat, p': seq<Event>, d: Stream)
    requires Numbered(p) && StreamOk(p, s) && q < |s.delivered| && p <= p' && StreamOk(p', d)
    requires d.start == s.delivered[q].number && d.accepts == s.accepts
    ensures s.start < d.start <= d.next
    ensures s.delivered[..q + 1] + d.delivered == Accepted(s.accepts, Between(p', s.start, d.next))
  {
    hide Accepted;
    DeliveredPrefix(p, s, q);
    var n := d.start;
    assert Between(p, s.start, n) == Between(p', s.start, n);
    assert Between(p', s.start, d.next) == Between(p', s.start, n) + Between(p', n, d.next);
    AcceptedJoin(s.accepts, Between(p', s.start, n), Between(p', n, d.next));
  }
}
