/**
 Status events from the runner to the control plane: the runner batches what is pushed and posts a
 batch on a tick or on demand, and the control plane splits the body and handles the events in order.
 */
module Outbound {
  import opened Options
  import opened Events

  // ---- the control plane ----

  type Unmarshal = string -> Option<Event>

  predicate IsShutdown(e: Event) {
    e.type_ == EVENT_STATUS && e.status.Some? && e.status.value.eventCode == EVENT_SHUTDOWN
  }

  /** The handler dereferences the status of every status event. */
  predicate Panics(e: Event) { e.type_ == EVENT_STATUS && e.status.None? }

  /** `HandleEvent` returns no error; `stored` says whether the store takes what it is given. */
  predicate HandlesWell(e: Event, stored: bool) {
    if e.type_ == EVENT_HELLO then e.hello.Some? && stored
    else if e.type_ == EVENT_STATUS then e.status.Some?
    else if e.type_ == EVENT_INFO then e.info.Some?
    else if e.type_ == EVENT_STARTED then e.started.Some? && stored
    else true
  }

  /** What is made of an event by its type: "hello" and "started" go into the store, and a status of code 1 is the shutdown. */
  lemma EventsByType(e: Event)
    ensures IsShutdown(e) <==> e.type_ == "status" && e.status.Some? && e.status.value.eventCode == 1
    ensures Panics(e) <==> e.type_ == "status" && e.status.None?
    ensures forall stored: bool :: HandlesWell(e, stored) <==>
      && (e.type_ == "hello" ==> e.hello.Some? && stored)
      && (e.type_ == "status" ==> e.status.Some?)
      && (e.type_ == "info" ==> e.info.Some?)
      && (e.type_ == "started" ==> e.started.Some? && stored)
  {
  }

  /** The events of a body that are handled: up to the first that cannot be, counting pieces from the end. */
  function Handled(pieces: seq<string>, unmarshal: Unmarshal, stored: nat -> bool): seq<Event> {
    if pieces == [] then []
    else if pieces[0] == "" then Handled(pieces[1..], unmarshal, stored)
    else
      match unmarshal(pieces[0])
      case None => []
      case Some(e) =>
        if Panics(e) then []
        else if IsShutdown(e) || !HandlesWell(e, stored(|pieces|)) then [e]
        else [e] + Handled(pieces[1..], unmarshal, stored)
  }

  /** Nothing keeps the pieces behind this one from being handled. */
  predicate Passes(pieces: seq<string>, i: nat, unmarshal: Unmarshal, stored: nat -> bool)
    requires i < |pieces|
  {
    pieces[i] == "" ||
    match unmarshal(pieces[i])
    case None => false
    case Some(e) => !Panics(e) && !IsShutdown(e) && HandlesWell(e, stored(|pieces| - i))
  }

  /** The piece is reached, and handling its event fails: the client gets an error. */
  predicate FailsAt(pieces: seq<string>, i: nat, unmarshal: Unmarshal, stored: nat -> bool)
    requires i < |pieces|
  {
    && (forall j | 0 <= j < i :: Passes(pieces, j, unmarshal, stored))
    && pieces[i] != ""
    && match unmarshal(pieces[i])
       case None => false
       case Some(e) => Panics(e) || (!IsShutdown(e) && !HandlesWell(e, stored(|pieces| - i)))
  }

  /** The events of the pieces that are read back. */
  function EventsIn(pieces: seq<string>, unmarshal: Unmarshal): seq<Event> {
    if pieces == [] then []
    else
      var first := if pieces[0] == "" then None else unmarshal(pieces[0]);
      (if first.Some? then [first.value] else []) + EventsIn(pieces[1..], unmarshal)
  }

  /**
   What is handled are the events of all pieces before the first that does not pass, and that one's,
   unless it cannot be read or makes the handler panic.
   */
  lemma {:induction false} HandledUpTo(pieces: seq<string>, unmarshal: Unmarshal, stored: nat -> bool) returns (n: nat)
    ensures n <= |pieces| && (forall j | 0 <= j < n :: Passes(pieces, j, unmarshal, stored))
    ensures n < |pieces| ==> !Passes(pieces, n, unmarshal, stored)
    ensures var last := if n < |pieces| then unmarshal(pieces[n]) else None;
      Handled(pieces, unmarshal, stored) ==
        EventsIn(pieces[..n], unmarshal) + if last.Some? && !Panics(last.value) then [last.value] else []
  {
    hide HandlesWell, IsShutdown, Panics;
    if pieces == [] || !Passes(pieces, 0, unmarshal, stored) {
      n := 0;
      assert EventsIn(pieces[..0], unmarshal) == [];
    } else {
      var rest := pieces[1..];
      var m := HandledUpTo(rest, unmarshal, stored);
      n := m + 1;
      forall j: nat | 0 < j < |pieces|
        ensures Passes(pieces, j, unmarshal, stored) <==> PassesBefore(rest, j, unmarshal, stored)
      {
      }
      assert pieces[..n][1..] == rest[..m] && pieces[..n][0] == pieces[0];
      PassedIsHandled(pieces, unmarshal, stored);
      hide Passes, Handled;
    }
  }

  predicate PassesBefore(rest: seq<string>, j: nat, unmarshal: Unmarshal, stored: nat -> bool)
    requires 0 < j <= |rest|
  {
    Passes(rest, j - 1, unmarshal, stored)
  }

  lemma PassedIsHandled(pieces: seq<string>, unmarshal: Unmarshal, stored: nat -> bool)
    requires pieces != [] && Passes(pieces, 0, unmarshal, stored)
    ensures var first := if pieces[0] == "" then None else unmarshal(pieces[0]);
      Handled(pieces, unmarshal, stored) == (if first.Some? then [first.value] else []) + Handled(pieces[1..], unmarshal, stored)
  {
  }

  class ControlPlane {
    /** The events given to `HandleEvent`, and those that started a cleanup, in order. */
    var handled: seq<Event>
    var cleanups: nat

    constructor ()
      ensures handled == [] && cleanups == 0
    {
      handled, cleanups := [], 0;
    }

    /** `handlePostStatus`. It never asks the client to post again. */
    method HandlePostStatus(body: string, unmarshal: Unmarshal, stored: nat -> bool) returns (success: bool)
      modifies this
      ensures handled == old(handled) + Handled(Split(body), unmarshal, stored)
      ensures cleanups == old(cleanups) + Shutdowns(Handled(Split(body), unmarshal, stored))
      ensures !success <==> exists i | 0 <= i < |Split(body)| :: FailsAt(Split(body), i, unmarshal, stored)
    {
      hide *;
      var events := Split(body);
      ghost var was := handled;
      ghost var all := Handled(events, unmarshal, stored);
      ghost var done: seq<Event> := [];
      HandledEnds(events, unmarshal, stored, was);
      for i := 0 to |events|
        invariant handled == was + done && cleanups == old(cleanups) + Shutdowns(done)
        invariant all == done + Handled(events[i..], unmarshal, stored)
        invariant forall j | 0 <= j < i :: Passes(events, j, unmarshal, stored)
      {
        hide *;
        OutcomeAt(events, i, unmarshal, stored);
        HandledStep(events, i, unmarshal, stored, was, done);
        if |events[i]| == 0 {
          continue;
        }
        var parsed := unmarshal(events[i]);
        if parsed.None? {
          return true;
        }
        var event := parsed.value;
        if Panics(event) {
          return false;
        }
        handled := handled + [event];
        done := done + [event];
        if IsShutdown(event) {
          cleanups := cleanups + 1;
          return true;
        }
        if !HandlesWell(event, stored(|events| - i)) {
          return false;
        }
      }
      NoneFails(events, unmarshal, stored);
      success := true;
    }
  }

  /** What the piece at `i` means for those before and behind it. */
  lemma OutcomeAt(pieces: seq<string>, i: nat, unmarshal: Unmarshal, stored: nat -> bool)
    requires i < |pieces| && forall j | 0 <= j < i :: Passes(pieces, j, unmarshal, stored)
    ensures pieces[i] == "" ==> Passes(pieces, i, unmarshal, stored)
    ensures pieces[i] != "" ==>
      var parsed := unmarshal(pieces[i]);
      if parsed.Some? && Panics(parsed.value) then FailsAt(pieces, i, unmarshal, stored)
      else if parsed.None? || IsShutdown(parsed.value) then forall k | 0 <= k < |pieces| :: !FailsAt(pieces, k, unmarshal, stored)
      else if !HandlesWell(parsed.value, stored(|pieces| - i)) then FailsAt(pieces, i, unmarshal, stored)
      else Passes(pieces, i, unmarshal, stored)
  {
    assert forall k | i < k < |pieces| :: FailsAt(pieces, k, unmarshal, stored) ==> Passes(pieces, i, unmarshal, stored);
    assert forall k | 0 <= k < i :: Passes(pieces, k, unmarshal, stored) ==> !FailsAt(pieces, k, unmarshal, stored);
    hide HandlesWell;
  }

  lemma NoneFails(pieces: seq<string>, unmarshal: Unmarshal, stored: nat -> bool)
    requires forall j | 0 <= j < |pieces| :: Passes(pieces, j, unmarshal, stored)
    ensures forall k | 0 <= k < |pieces| :: !FailsAt(pieces, k, unmarshal, stored)
  {
    assert forall k | 0 <= k < |pieces| :: Passes(pieces, k, unmarshal, stored) ==> !FailsAt(pieces, k, unmarshal, stored);
  }

  /** How many of the events report the shutdown. */
  function Shutdowns(events: seq<Event>): nat {
    if events == [] then 0
    else Shutdowns(events[..|events| - 1]) + if IsShutdown(events[|events| - 1]) then 1 else 0
  }

  lemma HandledEnds(events: seq<string>, unmarshal: Unmarshal, stored: nat -> bool, was: seq<Event>)
    ensures events[0..] == events && [] + Handled(events, unmarshal, stored) == Handled(events, unmarshal, stored)
    ensures forall done: seq<Event> :: done + Handled(events[|events|..], unmarshal, stored) == done
    ensures was + [] == was && Shutdowns([]) == 0
  {
  }

  /** What the event at `i` adds to those `done`. */
  lemma HandledStep(events: seq<string>, i: nat, unmarshal: Unmarshal, stored: nat -> bool, was: seq<Event>, done: seq<Event>)
    requires i < |events|
    ensures
      var now := done + Handled(events[i..], unmarshal, stored);
      var rest := Handled(events[i + 1..], unmarshal, stored);
      if events[i] == "" then now == done + rest
      else if unmarshal(events[i]).None? || Panics(unmarshal(events[i]).value) then now == done
      else
        var e := unmarshal(events[i]).value;
        && now == (if IsShutdown(e) || !HandlesWell(e, stored(|events| - i)) then done + [e] else done + [e] + rest)
        && was + done + [e] == was + (done + [e])
        && Shutdowns(done + [e]) == Shutdowns(done) + if IsShutdown(e) then 1 else 0
  {
    assert events[i..][1..] == events[i + 1..] && events[i..][0] == events[i];
    var rest := Handled(events[i + 1..], unmarshal, stored);
    if events[i] != "" && unmarshal(events[i]).Some? {
      var e := unmarshal(events[i]).value;
      assert done + ([e] + rest) == done + [e] + rest;
      assert done + [e] + [] == done + [e];
      assert (done + [e])[..|done|] == done;
    }
    assert done + [] == done;
  }

  ghost predicate ReadsBack(events: seq<Event>, unmarshal: Unmarshal) {
    forall e | e in events :: unmarshal(Marshal(e)) == Some(e)
  }

  /** A batch is handled up to its first event that cannot be, if the texts of its events are read back. */
  lemma {:induction false} HandledIsPrefix(batch: seq<Event>, unmarshal: Unmarshal, stored: nat -> bool)
    requires ReadsBack(batch, unmarshal)
    ensures Handled(Texts(batch) + [""], unmarshal, stored) <= batch
  {
    hide Marshal, Handled, HandlesWell, Texts, IsShutdown, Panics;
    TextsStep(batch, unmarshal, stored);
    if batch != [] {
      HandledIsPrefix(batch[1..], unmarshal, stored);
      PrefixInFront(batch, Handled(Texts(batch[1..]) + [""], unmarshal, stored));
    }
  }

  lemma PrefixInFront(whole: seq<Event>, part: seq<Event>)
    requires whole != [] && part <= whole[1..]
    ensures [whole[0]] <= whole && [whole[0]] + part <= whole
  {
  }

  /** All of it is handled if each event is well formed, none reports the shutdown, and the store works. */
  lemma {:induction false} HandledIsAll(batch: seq<Event>, unmarshal: Unmarshal, stored: nat -> bool)
    requires ReadsBack(batch, unmarshal)
    requires (forall e | e in batch :: !IsShutdown(e) && HandlesWell(e, true)) && forall n :: stored(n)
    ensures Handled(Texts(batch) + [""], unmarshal, stored) == batch
  {
    TextsStep(batch, unmarshal, stored);
    if batch != [] {
      assert !Panics(batch[0]);
      hide Marshal, Handled, HandlesWell, Texts;
      HandledIsAll(batch[1..], unmarshal, stored);
      assert batch == [batch[0]] + batch[1..];
    }
  }

  lemma TextsStep(batch: seq<Event>, unmarshal: Unmarshal, stored: nat -> bool)
    requires ReadsBack(batch, unmarshal)
    ensures batch == [] ==> Handled(Texts(batch) + [""], unmarshal, stored) == []
    ensures batch != [] ==>
      var e := batch[0];
      Handled(Texts(batch) + [""], unmarshal, stored) ==
        if Panics(e) then []
        else if IsShutdown(e) || !HandlesWell(e, stored(|batch| + 1)) then [e]
        else [e] + Handled(Texts(batch[1..]) + [""], unmarshal, stored)
  {
    var pieces := Texts(batch) + [""];
    if batch == [] {
      assert pieces == [""] && Handled(pieces[1..], unmarshal, stored) == [];
    } else {
      MarshalsPlainly(batch[0]);
      hide Marshal;
      assert pieces[1..] == Texts(batch[1..]) + [""];
      assert pieces[0] == Marshal(batch[0]);
    }
  }

  // ---- the runner ----

  /** What the loop in `HandleMonitor` can receive. */
  datatype Input = Tick | Push(dispatch: bool, event: Event)

  function Pushed(inputs: seq<Input>): seq<Event> {
    if inputs == [] then []
    else
      var n := |inputs| - 1;
      Pushed(inputs[..n]) + if inputs[n].Push? then [inputs[n].event] else []
  }

  /** What has been pushed but not posted yet. */
  function Pending(inputs: seq<Input>): seq<Event>
    decreases |inputs|, 2
  {
    if inputs == [] || Batch(inputs) != [] then [] else Buffered(inputs)
  }

  /** What is in the buffer after the last input has been received. */
  function Buffered(inputs: seq<Input>): seq<Event>
    requires inputs != []
    decreases |inputs|, 0
  {
    var n := |inputs| - 1;
    Pending(inputs[..n]) + if inputs[n].Push? then [inputs[n].event] else []
  }

  /** What is posted on the last input. */
  function Batch(inputs: seq<Input>): seq<Event>
    requires inputs != []
    decreases |inputs|, 1
  {
    var last := inputs[|inputs| - 1];
    if last.Tick? || last.dispatch then Buffered(inputs) else []
  }

  /** Everything posted. */
  function Posted(inputs: seq<Input>): seq<Event> {
    if inputs == [] then [] else Posted(inputs[..|inputs| - 1]) + Batch(inputs)
  }

  /** `arrives(n)`: the post on input n reaches the control plane, whatever the runner is told about it. */
  datatype Network = Network(arrives: nat -> bool, unmarshal: Unmarshal, stored: (nat, nat) -> bool)

  function StoredAt(net: Network, at: nat): nat -> bool { (n: nat) => net.stored(at, n) }

  /** What is handled of the body posted on input `at`; an empty one is not posted. */
  function HandledOf(body: string, at: nat, net: Network): seq<Event> {
    if body == "" || !net.arrives(at) then []
    else Handled(Split(body), net.unmarshal, StoredAt(net, at))
  }

  function HandledBy(inputs: seq<Input>, net: Network): seq<Event> {
    if inputs == [] then []
    else HandledBy(inputs[..|inputs| - 1], net) + HandledOf(Join(Batch(inputs)), |inputs| - 1, net)
  }

  class Server {
    var buf: string
    const plane: ControlPlane

    constructor (plane: ControlPlane)
      ensures buf == "" && this.plane == plane
    {
      buf, this.plane := "", plane;
    }

    /** Posts the buffer and resets it, whether or not the post succeeds. */
    method SendStatus(arrives: bool, unmarshal: Unmarshal, stored: nat -> bool)
      modifies this, plane
      ensures buf == ""
      ensures plane.handled == old(plane.handled) + if arrives then Handled(Split(old(buf)), unmarshal, stored) else []
      ensures plane.cleanups == old(plane.cleanups) + if arrives then Shutdowns(Handled(Split(old(buf)), unmarshal, stored)) else 0
    {
      if arrives {
        var success := plane.HandlePostStatus(buf, unmarshal, stored);
      }
      buf := "";
    }

    /** `HandleMonitor`, over any interleaving of ticks and pushes and whatever becomes of each post. */
    method HandleMonitor(inputs: seq<Input>, net: Network)
      requires buf == ""
      modifies this, plane
      ensures buf == Join(Pending(inputs))
      ensures plane.handled == old(plane.handled) + HandledBy(inputs, net)
      ensures plane.cleanups == old(plane.cleanups) + Shutdowns(HandledBy(inputs, net))
    {
      hide Shutdowns, Marshal, Handled, Split, Join, Pending, HandledBy, StoredAt;
      Start(net);
      assert inputs[..0] == [];
      for i := 0 to |inputs|
        invariant buf == Join(Pending(inputs[..i]))
        invariant plane.handled == old(plane.handled) + HandledBy(inputs[..i], net)
        invariant plane.cleanups == old(plane.cleanups) + Shutdowns(HandledBy(inputs[..i], net))
      {
        hide Shutdowns, Marshal, Handled, Split, Join, Pending, HandledBy, StoredAt;
        var input := inputs[i];
        assert inputs[..i + 1] == inputs[..i] + [input];
        OneMoreInput(inputs[..i], input, net);
        ghost var body := if input.Push? then buf + Marshal(input.event) + [NUL] else buf;
        ghost var more := HandledOf(if Sends(input) then body else "", i, net);
        Associate(old(plane.handled), HandledBy(inputs[..i], net), more);
        ShutdownsAppend(HandledBy(inputs[..i], net), more);
        match input {
          case Tick =>
            if |buf| == 0 {
              continue;
            }
            SendStatus(net.arrives(i), net.unmarshal, StoredAt(net, i));
          case Push(dispatch, event) =>
            buf := buf + Marshal(event) + [NUL];
            if dispatch {
              SendStatus(net.arrives(i), net.unmarshal, StoredAt(net, i));
            }
        }
      }
      assert inputs[..|inputs|] == inputs;
    }
  }

  lemma Start(net: Network)
    ensures Join(Pending([])) == "" && HandledBy([], net) == [] && Shutdowns([]) == 0
  {
  }

  lemma {:induction false} ShutdownsAppend(a: seq<Event>, b: seq<Event>)
    ensures Shutdowns(a + b) == Shutdowns(a) + Shutdowns(b)
    ensures Shutdowns([]) == 0
  {
    if b == [] {
      assert a + b == a;
    } else {
      var n := |b| - 1;
      assert (a + b)[..|a + b| - 1] == a + b[..n];
      ShutdownsAppend(a, b[..n]);
    }
  }

  lemma JoinOneMore(batch: seq<Event>, e: Event)
    ensures Join(batch + [e]) == Join(batch) + Marshal(e) + [NUL]
  {
    assert (batch + [e])[..|batch|] == batch;
  }

  lemma JoinIsEmpty(batch: seq<Event>)
    ensures Join(batch) == "" <==> batch == []
  {
    hide Marshal;
    if batch != [] {
      assert Join(batch)[|Join(batch)| - 1] == NUL;
    }
  }

  predicate Sends(input: Input) { input.Tick? || input.dispatch }

  /** What one input adds. */
  lemma OneMoreInput(before: seq<Input>, input: Input, net: Network)
    ensures
      var inputs := before + [input];
      var buffered := Pending(before) + if input.Push? then [input.event] else [];
      && Join(buffered) == (if input.Push? then Join(Pending(before)) + Marshal(input.event) + [NUL] else Join(Pending(before)))
      && Join(Pending(inputs)) == (if Sends(input) then "" else Join(buffered))
      && HandledBy(inputs, net) == HandledBy(before, net) + HandledOf(if Sends(input) then Join(buffered) else "", |before|, net)
  {
    hide Marshal, Handled, Split, Join;
    Start(net);
    var inputs := before + [input];
    assert inputs[..|before|] == before;
    JoinIsEmpty(Buffered(inputs));
    if input.Push? {
      JoinOneMore(Pending(before), input.event);
    } else {
      assert Pending(before) + [] == Pending(before);
    }
  }

  /** What is pushed waits until a tick, or until something is pushed to be sent at once; then everything goes. */
  lemma WhatIsPending(before: seq<Input>, e: Event)
    ensures Pending(before + [Tick]) == [] && Posted(before + [Tick]) == Posted(before) + Pending(before)
    ensures Pending(before + [Push(true, e)]) == [] && Posted(before + [Push(true, e)]) == Posted(before) + Pending(before) + [e]
    ensures Pending(before + [Push(false, e)]) == Pending(before) + [e] && Posted(before + [Push(false, e)]) == Posted(before)
  {
    PendingStep(before, Tick);
    PendingStep(before, Push(true, e));
    PendingStep(before, Push(false, e));
    assert Posted(before) + (Pending(before) + [e]) == Posted(before) + Pending(before) + [e];
    hide Pending, Posted;
  }

  lemma PendingStep(before: seq<Input>, input: Input)
    ensures var buffered := Pending(before) + if input.Push? then [input.event] else [];
      var sent := input.Tick? || input.dispatch;
      && Pending(before + [input]) == (if sent then [] else buffered)
      && Posted(before + [input]) == Posted(before) + if sent then buffered else []
  {
    assert (before + [input])[..|before|] == before;
    assert Pending(before) + [] == Pending(before);
    assert Buffered(before + [input]) == Pending(before) + if input.Push? then [input.event] else [];
  }

  // ---- over all runs ----

  /** Nothing is lost or duplicated in the buffer: what has been posted, then what is pending, is what was pushed, in order. */
  lemma {:induction false} PostedOrPending(inputs: seq<Input>)
    ensures Posted(inputs) + Pending(inputs) == Pushed(inputs)
  {
    if inputs != [] {
      var before := inputs[..|inputs| - 1];
      PostedOrPending(before);
      var pushed := if inputs[|before|].Push? then [inputs[|before|].event] else [];
      Associate(Posted(before), Pending(before), pushed);
      assert Buffered(inputs) == Pending(before) + pushed;
      if Batch(inputs) == [] {
        assert Posted(inputs) == Posted(before);
      } else {
        assert Posted(inputs) + [] == Posted(inputs);
      }
    }
  }

  lemma Associate<T>(a: seq<T>, b: seq<T>, c: seq<T>)
    ensures a + (b + c) == a + b + c && a + b + [] == a + b
  {
  }

  /** `part` is `whole` with some elements left out. */
  ghost predicate IsSubsequence<T(!new)>(part: seq<T>, whole: seq<T>) {
    exists at: seq<nat> :: Selects(at, part, whole)
  }

  predicate Selects<T(==)>(at: seq<nat>, part: seq<T>, whole: seq<T>) {
    && |at| == |part|
    && (forall i, j | 0 <= i < j < |at| :: at[i] < at[j])
    && forall i | 0 <= i < |at| :: at[i] < |whole| && part[i] == whole[at[i]]
  }

  lemma PrefixIsSubsequence<T(!new)>(part: seq<T>, whole: seq<T>)
    requires part <= whole
    ensures IsSubsequence(part, whole)
  {
    var at: seq<nat> := seq(|part|, i => i);
    assert Selects(at, part, whole);
  }

  lemma SubsequencesAppend<T(!new)>(part: seq<T>, whole: seq<T>, more: seq<T>, rest: seq<T>)
    requires IsSubsequence(part, whole) && IsSubsequence(more, rest)
    ensures IsSubsequence(part + more, whole + rest)
  {
    var at: seq<nat> :| Selects(at, part, whole);
    var to: seq<nat> :| Selects(to, more, rest);
    var shifted: seq<nat> := seq(|to|, i requires 0 <= i < |to| => |whole| + to[i]);
    assert Selects(at + shifted, part + more, whole + rest);
  }

  lemma HandledOfBatch(batch: seq<Event>, at: nat, net: Network)
    requires ReadsBack(batch, net.unmarshal)
    ensures HandledOf(Join(batch), at, net) <= batch
  {
    hide Handled, Split, Join, Marshal;
    SplitUndoesJoin(batch);
    HandledIsPrefix(batch, net.unmarshal, StoredAt(net, at));
  }

  /**
   Whatever is pushed, ticked, dispatched and lost: every event handled was posted, in push order and
   at most once.
   */
  lemma {:induction false} HandledWerePosted(inputs: seq<Input>, net: Network)
    requires ReadsBack(Posted(inputs), net.unmarshal)
    ensures IsSubsequence(HandledBy(inputs, net), Posted(inputs))
  {
    if inputs == [] {
      PrefixIsSubsequence<Event>([], []);
    } else {
      hide Marshal, HandledOf, Batch, IsSubsequence;
      var before := inputs[..|inputs| - 1];
      HandledWerePosted(before, net);
      HandledOfBatch(Batch(inputs), |before|, net);
      PrefixIsSubsequence(HandledOf(Join(Batch(inputs)), |before|, net), Batch(inputs));
      SubsequencesAppend(HandledBy(before, net), Posted(before), HandledOf(Join(Batch(inputs)), |before|, net), Batch(inputs));
    }
  }

  lemma HandledInPushOrder(inputs: seq<Input>, net: Network)
    requires ReadsBack(Pushed(inputs), net.unmarshal)
    ensures IsSubsequence(HandledBy(inputs, net), Pushed(inputs))
  {
    hide Marshal, IsSubsequence, HandledBy, Posted, Pending, Pushed;
    PostedOrPending(inputs);
    assert forall e | e in Posted(inputs) :: e in Posted(inputs) + Pending(inputs);
    HandledWerePosted(inputs, net);
    PrefixIsSubsequence([], Pending(inputs));
    SubsequencesAppend(HandledBy(inputs, net), Posted(inputs), [], Pending(inputs));
    assert HandledBy(inputs, net) + [] == HandledBy(inputs, net);
  }

  lemma {:induction false} SelectedShutdowns(at: seq<nat>, part: seq<Event>, whole: seq<Event>)
    requires Selects(at, part, whole)
    ensures Shutdowns(part) <= Shutdowns(whole)
    decreases |whole|
  {
    if part != [] {
      var n, last := |whole| - 1, |at| - 1;
      if at[last] == n {
        SelectedShutdowns(at[..last], part[..last], whole[..n]);
      } else {
        SelectedShutdowns(at, part, whole[..n]);
      }
    }
  }

  /**
   Whatever becomes of the posts, no more cleanups are started than shutdowns were reported; so a
   runner that reports its shutdown once is cleaned up after at most once.
   */
  lemma CleanupsFollowShutdowns(inputs: seq<Input>, net: Network)
    requires ReadsBack(Pushed(inputs), net.unmarshal)
    ensures Shutdowns(HandledBy(inputs, net)) <= Shutdowns(Pushed(inputs))
  {
    HandledInPushOrder(inputs, net);
    var at: seq<nat> :| Selects(at, HandledBy(inputs, net), Pushed(inputs));
    SelectedShutdowns(at, HandledBy(inputs, net), Pushed(inputs));
  }

  /** Nothing goes wrong: every post arrives, every event is well formed and none reports the shutdown. */
  ghost predicate NothingFails(events: seq<Event>, net: Network) {
    && (forall n :: net.arrives(n)) && (forall at, n :: net.stored(at, n))
    && ReadsBack(events, net.unmarshal) && forall e | e in events :: !IsShutdown(e) && HandlesWell(e, true)
  }

  /** If nothing fails, what is handled is exactly what was posted. */
  lemma {:induction false} AllPostedAreHandled(inputs: seq<Input>, net: Network)
    requires NothingFails(Posted(inputs), net)
    ensures HandledBy(inputs, net) == Posted(inputs)
  {
    if inputs != [] {
      hide Marshal, Batch, HandlesWell, Split, Join, Handled;
      var before := inputs[..|inputs| - 1];
      AllPostedAreHandled(before, net);
      SplitUndoesJoin(Batch(inputs));
      HandledIsAll(Batch(inputs), net.unmarshal, StoredAt(net, |before|));
    }
  }
}
