/** The events a runner reports, their JSON texts, and how a batch of them is framed in one body. */
module Events {
  import opened Options
  import Json

  const EVENT_SHUTDOWN := 1

  const EVENT_HELLO := "hello"
  const EVENT_STATUS := "status"
  const EVENT_INFO := "info"
  const EVENT_STARTED := "started"

  datatype StatusExtra = StatusExtra(eventCode: int, progress: int)
  datatype InfoExtra = InfoExtra(infoCode: int, actor: int, isError: bool)
  datatype HelloExtra = HelloExtra(version: string, host: string, ipv4: seq<string>, ipv6: seq<string>)
  datatype StartedExtra = StartedExtra(serverVersion: string, worldName: string, worldSeed: string)

  datatype Event = Event(
    type_: string,
    traceparent: string,
    hello: Option<HelloExtra>,
    status: Option<StatusExtra>,
    info: Option<InfoExtra>,
    started: Option<StartedExtra>)

  /** A list that was never filled is written as null. */
  function Strings(ss: seq<string>): Json.Value {
    if ss == [] then Json.Null else Json.Array(seq(|ss|, i requires 0 <= i < |ss| => Json.String(ss[i])))
  }

  function Field(name: string, v: Json.Value): seq<Json.Member> { [Json.Member(name, v)] }

  function ToValue(e: Event): Json.Value {
    Json.Object(
      Field("type", Json.String(e.type_)) +
      Field("metadata", Json.Object(Field("traceparent", Json.String(e.traceparent)))) +
      (match e.hello
       case None => []
       case Some(h) => Field("hello", Json.Object(
         Field("version", Json.String(h.version)) + Field("host", Json.String(h.host)) +
         Field("addr", Json.Object(
           Field("ipv4", Strings(h.ipv4)) + if h.ipv6 == [] then [] else Field("ipv6", Strings(h.ipv6))))))) +
      (match e.status
       case None => []
       case Some(s) => Field("status", Json.Object(
         Field("eventCode", Json.Number(s.eventCode)) + Field("progress", Json.Number(s.progress))))) +
      (match e.info
       case None => []
       case Some(i) => Field("info", Json.Object(
         Field("infoCode", Json.Number(i.infoCode)) + Field("actor", Json.Number(i.actor)) + Field("isError", Json.Bool(i.isError))))) +
      (match e.started
       case None => []
       case Some(s) => Field("started", Json.Object(
         Field("serverVersion", Json.String(s.serverVersion)) +
         Field("world", Json.Object(Field("name", Json.String(s.worldName)) + Field("seed", Json.String(s.worldSeed))))))))
  }

  function Marshal(e: Event): string { Json.Write(ToValue(e)) }

  // ---- framing ----

  const NUL: char := 0 as char

  /** A batch of events: each JSON text followed by a NUL. */
  function Join(batch: seq<Event>): string {
    if batch == [] then "" else Join(batch[..|batch| - 1]) + Marshal(batch[|batch| - 1]) + [NUL]
  }

  function IndexOfNul(s: string): (i: nat)
    ensures i <= |s| && (i < |s| ==> s[i] == NUL)
    ensures forall j | 0 <= j < i :: s[j] != NUL
  {
    if s == "" || s[0] == NUL then 0 else 1 + IndexOfNul(s[1..])
  }

  /** `bytes.Split` at NUL. */
  function Split(s: string): (pieces: seq<string>)
    ensures pieces != []
    decreases |s|
  {
    var i := IndexOfNul(s);
    if i == |s| then [s] else [s[..i]] + Split(s[i + 1..])
  }

  function Texts(batch: seq<Event>): seq<string> {
    seq(|batch|, i requires 0 <= i < |batch| => Marshal(batch[i]))
  }

  /** Each text is followed by a zero byte, the last one too. */
  lemma BatchLayout(a: Event, b: Event)
    ensures Join([]) == "" && Join([a]) == Marshal(a) + [0 as char] && Join([a, b]) == Marshal(a) + [0 as char] + Marshal(b) + [0 as char]
  {
    hide Marshal;
    assert [a][..0] == [] && [a, b][..1] == [a];
    assert Join([a][..0]) == "";
    assert "" + Marshal(a) == Marshal(a);
  }

  lemma {:induction false} SplitFirst(text: string, rest: string)
    requires Json.NoControls(text)
    ensures Split(text + [NUL] + rest) == [text] + Split(rest)
  {
    var s := text + [NUL] + rest;
    var i := IndexOfNul(s);
    assert s[|text|] == NUL;
    assert forall j | 0 <= j < |text| :: s[j] == text[j] != NUL;
    assert i == |text|;
    assert s[..i] == text && s[i + 1..] == rest;
  }

  lemma {:induction false} JoinFirst(batch: seq<Event>)
    requires batch != []
    ensures Join(batch) == Marshal(batch[0]) + [NUL] + Join(batch[1..])
  {
    hide Marshal;
    if |batch| == 1 {
      assert batch[..0] == [] && batch[1..] == [];
      assert Join(batch[..0]) == "";
    } else {
      var n := |batch| - 1;
      JoinFirst(batch[..n]);
      assert batch[..n][1..] == batch[1..][..n - 1];
      JoinLast(batch);
      JoinLast(batch[1..]);
      hide Join;
      Regroup(Marshal(batch[0]) + [NUL], Join(batch[1..][..n - 1]), Marshal(batch[n]) + [NUL]);
    }
  }

  lemma JoinLast(batch: seq<Event>)
    requires batch != []
    ensures Join(batch) == Join(batch[..|batch| - 1]) + (Marshal(batch[|batch| - 1]) + [NUL])
  {
    hide Marshal;
  }

  lemma Regroup(a: string, b: string, c: string)
    ensures a + b + c == a + (b + c)
  {
  }

  lemma SplitNothing()
    ensures Split("") == [""]
  {
  }

  /** Splitting a posted body at NUL recovers the texts of the batched events, in order, and one empty piece after them. */
  lemma {:induction false} SplitUndoesJoin(batch: seq<Event>)
    ensures Split(Join(batch)) == Texts(batch) + [""]
    ensures forall i | 0 <= i < |batch| :: Texts(batch)[i] != ""
  {
    SplitNothing();
    hide Marshal, Split, IndexOfNul;
    if batch != [] {
      JoinFirst(batch);
      MarshalsPlainly(batch[0]);
      SplitFirst(Marshal(batch[0]), Join(batch[1..]));
      SplitUndoesJoin(batch[1..]);
      assert Texts(batch) == [Marshal(batch[0])] + Texts(batch[1..]);
    }
  }

  lemma MarshalsPlainly(e: Event)
    ensures Marshal(e) != "" && Json.NoControls(Marshal(e))
  {
    Json.WritesNoControls(ToValue(e));
  }
}
