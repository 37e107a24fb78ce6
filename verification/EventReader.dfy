/** The control plane's reading of an event: the inverse of writing it. */
module EventReader {
  import opened Options
  import opened Json
  import opened JsonReader
  import opened Events
  import opened Outbound

  /** The value of the last member with the name. */
  function Lookup(members: seq<Member>, name: string): Option<Value> {
    if members == [] then None
    else
      var last := members[|members| - 1];
      if last.name == name then Some(last.value) else Lookup(members[..|members| - 1], name)
  }

  // What a value becomes in a Go variable of some type; a missing one, or null, leaves the zero value.

  function AsString(v: Option<Value>): Option<string> {
    match v
    case None => Some("")
    case Some(Null) => Some("")
    case Some(String(s)) => Some(s)
    case Some(_) => None
  }

  function AsInt(v: Option<Value>): Option<int> {
    match v
    case None => Some(0)
    case Some(Null) => Some(0)
    case Some(Number(n)) => if IsGoInt(n) then Some(n) else None
    case Some(_) => None
  }

  predicate IsGoInt(n: int) { -0x8000_0000_0000_0000 <= n < 0x8000_0000_0000_0000 }

  function AsBool(v: Option<Value>): Option<bool> {
    match v
    case None => Some(false)
    case Some(Null) => Some(false)
    case Some(Bool(b)) => Some(b)
    case Some(_) => None
  }

  function AsStrings(v: Option<Value>): Option<seq<string>> {
    match v
    case None => Some([])
    case Some(Null) => Some([])
    case Some(Array(items)) => AllStrings(items)
    case Some(_) => None
  }

  function AllStrings(items: seq<Value>): Option<seq<string>> {
    if items == [] then Some([])
    else
      var first, others := AsString(Some(items[0])), AllStrings(items[1..]);
      if first.None? || others.None? then None else Some([first.value] + others.value)
  }

  /** The members of a nested struct. */
  function AsStruct(v: Option<Value>): Option<seq<Member>> {
    match v
    case None => Some([])
    case Some(Null) => Some([])
    case Some(Object(members)) => Some(members)
    case Some(_) => None
  }

  /** A pointer to a struct: nil, or what its members are read as. */
  function AsPointer<T>(v: Option<Value>, read: seq<Member> -> Option<T>): Option<Option<T>> {
    match v
    case None => Some(None)
    case Some(Null) => Some(None)
    case Some(Object(members)) => if read(members).None? then None else Some(read(members))
    case Some(_) => None
  }

  function ReadStatus(ms: seq<Member>): Option<StatusExtra> {
    var eventCode, progress := AsInt(Lookup(ms, "eventCode")), AsInt(Lookup(ms, "progress"));
    if eventCode.None? || progress.None? then None else Some(StatusExtra(eventCode.value, progress.value))
  }

  function ReadInfo(ms: seq<Member>): Option<InfoExtra> {
    var infoCode, actor, isError := AsInt(Lookup(ms, "infoCode")), AsInt(Lookup(ms, "actor")), AsBool(Lookup(ms, "isError"));
    if infoCode.None? || actor.None? || isError.None? then None
    else Some(InfoExtra(infoCode.value, actor.value, isError.value))
  }

  function ReadHello(ms: seq<Member>): Option<HelloExtra> {
    var version, host, addr := AsString(Lookup(ms, "version")), AsString(Lookup(ms, "host")), AsStruct(Lookup(ms, "addr"));
    if version.None? || host.None? || addr.None? then None
    else
      var ipv4, ipv6 := AsStrings(Lookup(addr.value, "ipv4")), AsStrings(Lookup(addr.value, "ipv6"));
      if ipv4.None? || ipv6.None? then None else Some(HelloExtra(version.value, host.value, ipv4.value, ipv6.value))
  }

  function ReadStarted(ms: seq<Member>): Option<StartedExtra> {
    var serverVersion, world := AsString(Lookup(ms, "serverVersion")), AsStruct(Lookup(ms, "world"));
    if serverVersion.None? || world.None? then None
    else
      var name, seed := AsString(Lookup(world.value, "name")), AsString(Lookup(world.value, "seed"));
      if name.None? || seed.None? then None else Some(StartedExtra(serverVersion.value, name.value, seed.value))
  }

  function ReadEvent(v: Value): Option<Event> {
    var ms := AsStruct(Some(v));
    if ms.None? then None
    else
      var type_, metadata := AsString(Lookup(ms.value, "type")), AsStruct(Lookup(ms.value, "metadata"));
      var hello, status := AsPointer(Lookup(ms.value, "hello"), ReadHello), AsPointer(Lookup(ms.value, "status"), ReadStatus);
      var info, started := AsPointer(Lookup(ms.value, "info"), ReadInfo), AsPointer(Lookup(ms.value, "started"), ReadStarted);
      if type_.None? || metadata.None? || hello.None? || status.None? || info.None? || started.None? then None
      else
        var traceparent := AsString(Lookup(metadata.value, "traceparent"));
        if traceparent.None? then None
        else Some(Event(type_.value, traceparent.value, hello.value, status.value, info.value, started.value))
  }

  /** `json.Unmarshal` into an event. */
  function UnmarshalEvent(s: string): Option<Event> {
    match Read(s)
    case None => None
    case Some((v, rest)) => if rest == "" then ReadEvent(v) else None
  }

  // ---- reading undoes writing ----

  /** The numbers of an event are Go integers. */
  predicate HasGoInts(e: Event) {
    && (e.status.Some? ==> IsGoInt(e.status.value.eventCode) && IsGoInt(e.status.value.progress))
    && (e.info.Some? ==> IsGoInt(e.info.value.infoCode) && IsGoInt(e.info.value.actor))
  }

  lemma {:induction false} LookupAppend(a: seq<Member>, b: seq<Member>, name: string)
    ensures Lookup(a + b, name) == if Lookup(b, name).Some? then Lookup(b, name) else Lookup(a, name)
  {
    if b == [] {
      assert a + b == a;
    } else {
      var n := |b| - 1;
      assert (a + b)[..|a + b| - 1] == a + b[..n];
      LookupAppend(a, b[..n], name);
    }
  }

  /** A member that may be left out. */
  function Part(name: string, v: Option<Value>): seq<Member> {
    if v.None? then [] else Field(name, v.value)
  }

  function Parts(ps: seq<(string, Option<Value>)>): seq<Member> {
    if ps == [] then [] else Parts(ps[..|ps| - 1]) + Part(ps[|ps| - 1].0, ps[|ps| - 1].1)
  }

  predicate DistinctNames(ps: seq<(string, Option<Value>)>) {
    forall i, j | 0 <= i < j < |ps| :: ps[i].0 != ps[j].0
  }

  lemma LookupPart(name: string, v: Option<Value>, wanted: string)
    ensures Lookup(Part(name, v), wanted) == if wanted == name then v else None
  {
  }

  lemma {:induction false} LookupParts(ps: seq<(string, Option<Value>)>, i: nat)
    requires DistinctNames(ps) && i < |ps|
    ensures Lookup(Parts(ps), ps[i].0) == ps[i].1
  {
    hide Part, Lookup;
    var n := |ps| - 1;
    LookupAppend(Parts(ps[..n]), Part(ps[n].0, ps[n].1), ps[i].0);
    LookupPart(ps[n].0, ps[n].1, ps[i].0);
    if i < n {
      LookupParts(ps[..n], i);
    } else {
      NotAmong(ps[..n], ps[n].0);
    }
  }

  lemma {:induction false} NotAmong(ps: seq<(string, Option<Value>)>, name: string)
    requires forall i | 0 <= i < |ps| :: ps[i].0 != name
    ensures Lookup(Parts(ps), name) == None
  {
    if ps != [] {
      var n := |ps| - 1;
      NotAmong(ps[..n], name);
      LookupAppend(Parts(ps[..n]), Part(ps[n].0, ps[n].1), name);
      LookupPart(ps[n].0, ps[n].1, name);
    }
  }

  lemma PartsOfTwo(a: (string, Option<Value>), b: (string, Option<Value>))
    requires a.0 != b.0
    ensures var ms := Part(a.0, a.1) + Part(b.0, b.1); Lookup(ms, a.0) == a.1 && Lookup(ms, b.0) == b.1
  {
    LookupAppend(Part(a.0, a.1), Part(b.0, b.1), a.0);
    LookupAppend(Part(a.0, a.1), Part(b.0, b.1), b.0);
    LookupPart(a.0, a.1, a.0);
    LookupPart(a.0, a.1, b.0);
    LookupPart(b.0, b.1, a.0);
    LookupPart(b.0, b.1, b.0);
  }

  lemma PartsOfThree(a: (string, Option<Value>), b: (string, Option<Value>), c: (string, Option<Value>))
    requires a.0 != b.0 && a.0 != c.0 && b.0 != c.0
    ensures var ms := Part(a.0, a.1) + Part(b.0, b.1) + Part(c.0, c.1);
      Lookup(ms, a.0) == a.1 && Lookup(ms, b.0) == b.1 && Lookup(ms, c.0) == c.1
  {
    var ps := [a, b, c];
    assert ps[..2] == [a, b] && ps[..2][..1] == [a] && [a][..0] == [];
    assert Parts([a]) == [] + Part(a.0, a.1) == Part(a.0, a.1);
    assert Parts([a, b]) == Parts([a, b][..1]) + Part(b.0, b.1);
    assert Parts(ps) == Part(a.0, a.1) + Part(b.0, b.1) + Part(c.0, c.1);
    LookupParts(ps, 0);
    LookupParts(ps, 1);
    LookupParts(ps, 2);
  }

  lemma StatusIsRead(s: StatusExtra)
    requires IsGoInt(s.eventCode) && IsGoInt(s.progress)
    ensures ReadStatus(Field("eventCode", Number(s.eventCode)) + Field("progress", Number(s.progress))) == Some(s)
  {
    PartsOfTwo(("eventCode", Some(Number(s.eventCode))), ("progress", Some(Number(s.progress))));
    hide Lookup;
  }

  lemma InfoIsRead(i: InfoExtra)
    requires IsGoInt(i.infoCode) && IsGoInt(i.actor)
    ensures ReadInfo(
      Field("infoCode", Number(i.infoCode)) + Field("actor", Number(i.actor)) + Field("isError", Bool(i.isError))) == Some(i)
  {
    PartsOfThree(
      ("infoCode", Some(Number(i.infoCode))), ("actor", Some(Number(i.actor))), ("isError", Some(Bool(i.isError))));
    hide Lookup;
  }

  lemma StartedIsRead(s: StartedExtra)
    ensures ReadStarted(
      Field("serverVersion", String(s.serverVersion)) +
      Field("world", Object(Field("name", String(s.worldName)) + Field("seed", String(s.worldSeed))))) == Some(s)
  {
    var world := Object(Field("name", String(s.worldName)) + Field("seed", String(s.worldSeed)));
    PartsOfTwo(("serverVersion", Some(String(s.serverVersion))), ("world", Some(world)));
    PartsOfTwo(("name", Some(String(s.worldName))), ("seed", Some(String(s.worldSeed))));
    hide Lookup;
  }

  lemma {:induction false} StringsAreRead(ss: seq<string>)
    ensures AsStrings(Some(Strings(ss))) == Some(ss)
  {
    if ss != [] {
      var items := seq(|ss|, i requires 0 <= i < |ss| => String(ss[i]));
      AllAreRead(ss, items);
    }
  }

  lemma {:induction false} AllAreRead(ss: seq<string>, items: seq<Value>)
    requires |items| == |ss| && forall i | 0 <= i < |ss| :: items[i] == String(ss[i])
    ensures AllStrings(items) == Some(ss)
  {
    if ss != [] {
      AllAreRead(ss[1..], items[1..]);
      assert ss == [ss[0]] + ss[1..];
    }
  }

  lemma HelloIsRead(h: HelloExtra)
    ensures ReadHello(
      Field("version", String(h.version)) + Field("host", String(h.host)) +
      Field("addr", Object(Field("ipv4", Strings(h.ipv4)) + if h.ipv6 == [] then [] else Field("ipv6", Strings(h.ipv6))))) == Some(h)
  {
    var ipv6 := if h.ipv6 == [] then None else Some(Strings(h.ipv6));
    var addr := Object(Field("ipv4", Strings(h.ipv4)) + if h.ipv6 == [] then [] else Field("ipv6", Strings(h.ipv6)));
    PartsOfThree(("version", Some(String(h.version))), ("host", Some(String(h.host))), ("addr", Some(addr)));
    PartsOfTwo(("ipv4", Some(Strings(h.ipv4))), ("ipv6", ipv6));
    StringsAreRead(h.ipv4);
    StringsAreRead(h.ipv6);
    hide Lookup, Strings;
  }

  /** The values of an event's members, in the order they are written. */
  function EventParts(e: Event): (ps: seq<(string, Option<Value>)>)
    ensures |ps| == 6
  {
    [ ("type", Some(String(e.type_))),
      ("metadata", Some(Object(Field("traceparent", String(e.traceparent))))),
      ("hello", if e.hello.None? then None else Some(HelloValue(e.hello.value))),
      ("status", if e.status.None? then None else Some(StatusValue(e.status.value))),
      ("info", if e.info.None? then None else Some(InfoValue(e.info.value))),
      ("started", if e.started.None? then None else Some(StartedValue(e.started.value))) ]
  }

  function StatusValue(s: StatusExtra): Value {
    Object(Field("eventCode", Number(s.eventCode)) + Field("progress", Number(s.progress)))
  }

  function InfoValue(i: InfoExtra): Value {
    Object(Field("infoCode", Number(i.infoCode)) + Field("actor", Number(i.actor)) + Field("isError", Bool(i.isError)))
  }

  function StartedValue(s: StartedExtra): Value {
    Object(
      Field("serverVersion", String(s.serverVersion)) +
      Field("world", Object(Field("name", String(s.worldName)) + Field("seed", String(s.worldSeed)))))
  }

  function HelloValue(h: HelloExtra): Value {
    Object(
      Field("version", String(h.version)) + Field("host", String(h.host)) +
      Field("addr", Object(Field("ipv4", Strings(h.ipv4)) + if h.ipv6 == [] then [] else Field("ipv6", Strings(h.ipv6)))))
  }

  lemma PartsOfSix(ps: seq<(string, Option<Value>)>)
    requires |ps| == 6
    ensures Parts(ps) ==
      Part(ps[0].0, ps[0].1) + Part(ps[1].0, ps[1].1) + Part(ps[2].0, ps[2].1) +
      Part(ps[3].0, ps[3].1) + Part(ps[4].0, ps[4].1) + Part(ps[5].0, ps[5].1)
  {
    hide Part;
    assert Parts(ps[..0]) == [];
    PartsStep(ps, 0);
    PartsStep(ps, 1);
    PartsStep(ps, 2);
    PartsStep(ps, 3);
    PartsStep(ps, 4);
    PartsStep(ps, 5);
    assert ps[..6] == ps;
    assert [] + Part(ps[0].0, ps[0].1) == Part(ps[0].0, ps[0].1);
  }

  lemma PartsStep(ps: seq<(string, Option<Value>)>, i: nat)
    requires i < |ps|
    ensures Parts(ps[..i + 1]) == Parts(ps[..i]) + Part(ps[i].0, ps[i].1)
  {
    assert ps[..i + 1][..i] == ps[..i];
  }

  lemma WrittenInParts(e: Event)
    ensures ToValue(e) == Object(Parts(EventParts(e)))
  {
    PartsOfSix(EventParts(e));
    hide Parts, Strings;
  }

  lemma EventNamesDiffer(e: Event)
    ensures DistinctNames(EventParts(e))
  {
    hide StatusValue, InfoValue, StartedValue, HelloValue;
  }

  /** Each member of a written event is found again. */
  lemma MembersAreFound(e: Event)
    ensures ToValue(e).Object?
    ensures forall i | 0 <= i < 6 :: Lookup(ToValue(e).members, EventParts(e)[i].0) == EventParts(e)[i].1
  {
    WrittenInParts(e);
    EventNamesDiffer(e);
    hide EventParts, Lookup, ToValue, Parts, DistinctNames;
    forall i | 0 <= i < 6
      ensures Lookup(ToValue(e).members, EventParts(e)[i].0) == EventParts(e)[i].1
    {
      LookupParts(EventParts(e), i);
    }
  }

  lemma MembersByName(e: Event)
    ensures ToValue(e).Object?
    ensures var ms := ToValue(e).members;
      && Lookup(ms, "type") == EventParts(e)[0].1 && Lookup(ms, "metadata") == EventParts(e)[1].1
      && Lookup(ms, "hello") == EventParts(e)[2].1 && Lookup(ms, "status") == EventParts(e)[3].1
      && Lookup(ms, "info") == EventParts(e)[4].1 && Lookup(ms, "started") == EventParts(e)[5].1
  {
    MembersAreFound(e);
    hide ToValue, Lookup, StatusValue, InfoValue, StartedValue, HelloValue;
    var ms, ps := ToValue(e).members, EventParts(e);
    assert Lookup(ms, ps[0].0) == ps[0].1 && Lookup(ms, ps[1].0) == ps[1].1 && Lookup(ms, ps[2].0) == ps[2].1;
    assert Lookup(ms, ps[3].0) == ps[3].1 && Lookup(ms, ps[4].0) == ps[4].1 && Lookup(ms, ps[5].0) == ps[5].1;
  }

  lemma PointersAreRead(e: Event)
    requires HasGoInts(e)
    ensures AsPointer(EventParts(e)[2].1, ReadHello) == Some(e.hello)
    ensures AsPointer(EventParts(e)[3].1, ReadStatus) == Some(e.status)
    ensures AsPointer(EventParts(e)[4].1, ReadInfo) == Some(e.info)
    ensures AsPointer(EventParts(e)[5].1, ReadStarted) == Some(e.started)
  {
    hide ReadHello, ReadStatus, ReadInfo, ReadStarted, IsGoInt;
    if e.hello.Some? {
      HelloIsRead(e.hello.value);
    }
    if e.status.Some? {
      StatusIsRead(e.status.value);
    }
    if e.info.Some? {
      InfoIsRead(e.info.value);
    }
    if e.started.Some? {
      StartedIsRead(e.started.value);
    }
  }

  lemma PlainPartsAreRead(e: Event)
    ensures AsString(EventParts(e)[0].1) == Some(e.type_)
    ensures var metadata := AsStruct(EventParts(e)[1].1);
      metadata.Some? && AsString(Lookup(metadata.value, "traceparent")) == Some(e.traceparent)
  {
    LookupPart("traceparent", Some(String(e.traceparent)), "traceparent");
    hide StatusValue, InfoValue, StartedValue, HelloValue, Lookup;
  }

  lemma EventIsRead(e: Event)
    requires HasGoInts(e)
    ensures ReadEvent(ToValue(e)) == Some(e)
  {
    MembersByName(e);
    PointersAreRead(e);
    PlainPartsAreRead(e);
    hide ToValue, Lookup, EventParts, AsPointer, AsString, AsStruct;
    assert AsStruct(Some(ToValue(e))) == Some(ToValue(e).members) by {
      ObjectIsStruct(ToValue(e));
    }
  }

  lemma ObjectIsStruct(v: Value)
    requires v.Object?
    ensures AsStruct(Some(v)) == Some(v.members)
  {
  }

  /** The members of an event that has everything an event can have. */
  lemma EventLayout(e: Event)
    requires e.hello.Some? && e.hello.value.ipv6 != [] && e.status.Some? && e.info.Some? && e.started.Some?
    ensures ToValue(e) == Object([
      Member("type", String(e.type_)),
      Member("metadata", Object([Member("traceparent", String(e.traceparent))])),
      Member("hello", Object([
        Member("version", String(e.hello.value.version)),
        Member("host", String(e.hello.value.host)),
        Member("addr", Object([
          Member("ipv4", Strings(e.hello.value.ipv4)),
          Member("ipv6", Strings(e.hello.value.ipv6))]))])),
      Member("status", Object([
        Member("eventCode", Number(e.status.value.eventCode)),
        Member("progress", Number(e.status.value.progress))])),
      Member("info", Object([
        Member("infoCode", Number(e.info.value.infoCode)),
        Member("actor", Number(e.info.value.actor)),
        Member("isError", Bool(e.info.value.isError))])),
      Member("started", Object([
        Member("serverVersion", String(e.started.value.serverVersion)),
        Member("world", Object([
          Member("name", String(e.started.value.worldName)),
          Member("seed", String(e.started.value.worldSeed))]))]))])
  {
    hide Strings;
    var h, s, i, t := e.hello.value, e.status.value, e.info.value, e.started.value;
    var addr := [Member("ipv4", Strings(h.ipv4)), Member("ipv6", Strings(h.ipv6))];
    assert Field("ipv4", Strings(h.ipv4)) + Field("ipv6", Strings(h.ipv6)) == addr;
    var world := [Member("name", String(t.worldName)), Member("seed", String(t.worldSeed))];
    assert Field("name", String(t.worldName)) + Field("seed", String(t.worldSeed)) == world;
    var hello := [Member("version", String(h.version)), Member("host", String(h.host)), Member("addr", Object(addr))];
    assert Field("version", String(h.version)) + Field("host", String(h.host)) + Field("addr", Object(addr)) == hello;
    var status := [Member("eventCode", Number(s.eventCode)), Member("progress", Number(s.progress))];
    assert Field("eventCode", Number(s.eventCode)) + Field("progress", Number(s.progress)) == status;
    var info := [Member("infoCode", Number(i.infoCode)), Member("actor", Number(i.actor)), Member("isError", Bool(i.isError))];
    assert Field("infoCode", Number(i.infoCode)) + Field("actor", Number(i.actor)) + Field("isError", Bool(i.isError)) == info;
    var started := [Member("serverVersion", String(t.serverVersion)), Member("world", Object(world))];
    assert Field("serverVersion", String(t.serverVersion)) + Field("world", Object(world)) == started;
    assert EventParts(e)[2].1 == Some(Object(hello)) && EventParts(e)[5].1 == Some(Object(started));
    assert Field("traceparent", String(e.traceparent)) == [Member("traceparent", String(e.traceparent))];
    WrittenInParts(e);
    PartsOfSix(EventParts(e));
    hide ToValue, Parts;
  }

  /** The control plane reads back every event that a runner reports. */
  lemma UnmarshalUndoesMarshal(e: Event)
    requires HasGoInts(e)
    ensures UnmarshalEvent(Marshal(e)) == Some(e)
  {
    EventIsRead(e);
    hide ReadEvent, ToValue, Read, Write;
    ReadUndoesWrite(ToValue(e), "");
    assert Write(ToValue(e)) + "" == Write(ToValue(e));
  }

  /** So, whatever is pushed, ticked, dispatched and lost, what is handled was pushed, in that order and at most once. */
  lemma PushedEventsArrive(inputs: seq<Input>, net: Network)
    requires net.unmarshal == UnmarshalEvent && forall e | e in Pushed(inputs) :: HasGoInts(e)
    ensures IsSubsequence(HandledBy(inputs, net), Pushed(inputs))
    ensures Shutdowns(HandledBy(inputs, net)) <= Shutdowns(Pushed(inputs))
  {
    hide Marshal, UnmarshalEvent, IsSubsequence, HandledBy;
    forall e | e in Pushed(inputs)
      ensures net.unmarshal(Marshal(e)) == Some(e)
    {
      UnmarshalUndoesMarshal(e);
    }
    HandledInPushOrder(inputs, net);
    CleanupsFollowShutdowns(inputs, net);
  }
}
