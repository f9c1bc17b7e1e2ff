/** The `InfiniteCraft` client: its session lifecycle, the rate-limit gate over
    outstanding request timestamps, the pairing call and the discoveries store.

    Time is an integer clock (`now`) that only a sleep or a reply's latency
    advances; the discoveries file is the `store` field; the HTTP reply to a
    request is an input. */
module InfiniteCraft {
  import opened PyText
  import opened Types
  import opened Elements
  import Constants
  import Http
  import opened PyList

  datatype Error =
    | ValueError(message: string)
    | FileNotFoundError(message: string)
    | RuntimeError(message: string)
    | ClientResponseError(message: string)
    | TransportError

  datatype Result<+T> = Ok(value: T) | Err(error: Error)

  datatype Outcome = Pass | Fail(error: Error)

  const RateLimitMessage: string := "api_rate_limit must be greater than or equal to 0"
  const NotStartedMessage: string := "Session has not been started yet"
  const AlreadyRunningMessage: string := "Session is already running"
  const SessionClosedMessage: string := "Session is closed"
  const AlreadyClosedMessage: string := "Session is already closed"
  const RemoveMissingMessage: string := "list.remove(x): x not in list"

  function NotFoundMessage(path: string): string {
    "File '" + path + "' not found"
  }

  /** The seconds a ticket counts against the rate limit. */
  const Window: int := 60

  // ---------------------------------------------------------------- session

  /** `_session is None`, an open session, or a closed one. */
  datatype SessionState = NotStarted | Open | Closed

  /** The `closed` property: None before `start`, then the session's own flag. */
  function ClosedProperty(s: SessionState): (c: Option<bool>)
    ensures c.None? <==> s.NotStarted?
    ensures c == Some(true) <==> s.Closed?
  {
    match s
    case NotStarted => None
    case Open => Some(false)
    case Closed => Some(true)
  }

  /** `start`: only a never-started session opens. */
  function StartTransition(s: SessionState): (r: Result<SessionState>)
    ensures r.Ok? <==> s.NotStarted?
    ensures r.Ok? ==> r.value == Open
  {
    match s
    case NotStarted => Ok(Open)
    case Open => Err(RuntimeError(AlreadyRunningMessage))
    case Closed => Err(RuntimeError(SessionClosedMessage))
  }

  /** `close`: only an open session closes. */
  function CloseTransition(s: SessionState): (r: Result<SessionState>)
    ensures r.Ok? <==> s.Open?
    ensures r.Ok? ==> r.value == Closed
  {
    match s
    case NotStarted => Err(RuntimeError(NotStartedMessage))
    case Open => Ok(Closed)
    case Closed => Err(RuntimeError(AlreadyClosedMessage))
  }

  /** `__aenter__` and `__aexit__`: with manual control they do nothing. */
  function EnterTransition(manualControl: bool, s: SessionState): (r: Result<SessionState>)
    ensures manualControl ==> r == Ok(s)
  {
    if manualControl then Ok(s) else StartTransition(s)
  }

  function ExitTransition(manualControl: bool, s: SessionState): (r: Result<SessionState>)
    ensures manualControl ==> r == Ok(s)
  {
    if manualControl then Ok(s) else CloseTransition(s)
  }

  datatype LifecycleCall = StartCall | CloseCall

  /** The session state after a series of `start`/`close` calls; a call that
      raises leaves the state as it was. */
  function RunLifecycle(calls: seq<LifecycleCall>, s: SessionState): SessionState
    decreases |calls|
  {
    if calls == [] then s
    else
      var r := if calls[0].StartCall? then StartTransition(s) else CloseTransition(s);
      RunLifecycle(calls[1..], if r.Ok? then r.value else s)
  }

  function Stage(s: SessionState): nat {
    match s
    case NotStarted => 0
    case Open => 1
    case Closed => 2
  }

  /** The session only moves forward: no call sequence reopens a closed session
      or un-starts a started one. */
  lemma {:induction false} LifecycleNeverGoesBack(calls: seq<LifecycleCall>, s: SessionState)
    ensures Stage(RunLifecycle(calls, s)) >= Stage(s)
    decreases |calls|
  {
    if calls != [] {
      var r := if calls[0].StartCall? then StartTransition(s) else CloseTransition(s);
      LifecycleNeverGoesBack(calls[1..], if r.Ok? then r.value else s);
    }
  }

  /** A closed session stays closed whatever is called on it. */
  lemma ClosedIsTerminal(calls: seq<LifecycleCall>)
    ensures RunLifecycle(calls, Closed) == Closed
  {
    LifecycleNeverGoesBack(calls, Closed);
  }

  // ---------------------------------------------------------------- request gate

  /** Tickets oldest first. */
  ghost predicate Sorted(s: seq<int>) {
    forall i, j :: 0 <= i < j < |s| ==> s[i] <= s[j]
  }

  /** The wait condition of `_wait_for_request`: more tickets than the limit,
      and the oldest one is still inside the window. */
  predicate Throttled(requests: seq<int>, limit: nat, now: int) {
    |requests| > limit && requests[0] + Window > now
  }

  /** The clock reading at which `_wait_for_request` returns, for the ticket list
      that already holds the new ticket: the earliest time not throttled. */
  function AdmittedAt(requests: seq<int>, limit: nat, now: int): (t: int)
    ensures t >= now && !Throttled(requests, limit, t)
    ensures forall u :: now <= u < t ==> Throttled(requests, limit, u)
  {
    if Throttled(requests, limit, now) then requests[0] + Window else now
  }

  /** Within the limit the gate never waits. */
  lemma WithinLimitNoWait(requests: seq<int>, limit: nat, now: int)
    requires |requests| <= limit
    ensures AdmittedAt(requests, limit, now) == now
  {
  }

  /** The request after `limit` others still inside the window waits until the
      oldest of them is a full window old. */
  lemma OverLimitWaitsForOldest(older: seq<int>, limit: nat, now: int)
    requires |older| >= limit && |older| > 0 && older[0] + Window > now
    ensures AdmittedAt(older + [now], limit, now) == older[0] + Window
  {
  }

  /** A limit of 0 does not switch the gate off: a request waits for any older
      ticket to leave the window. */
  lemma ZeroLimitStillWaits(older: seq<int>, now: int)
    requires |older| > 0 && older[0] + Window > now
    ensures AdmittedAt(older + [now], 0, now) == older[0] + Window > now
  {
  }

  /** With limit 0 and no older ticket, the new ticket is itself the oldest and
      the caller waits a whole window. */
  lemma ZeroLimitAloneWaitsWindow(now: int)
    ensures AdmittedAt([now], 0, now) == now + Window
  {
  }

  /** The position of the first `x` in `s`. */
  function FirstIndex(s: seq<int>, x: int): (i: nat)
    requires x in s
    ensures i < |s| && s[i] == x && x !in s[..i]
  {
    if s[0] == x then 0
    else
      var i := 1 + FirstIndex(s[1..], x);
      assert s[..i] == [s[0]] + s[1..][..i - 1];
      i
  }

  /** `list.remove(x)`: drop one `x`, the first (see `RemoveFirstAt`). */
  function RemoveFirst(s: seq<int>, x: int): (r: seq<int>)
    requires x in s
    ensures |r| == |s| - 1
    ensures multiset(r) == multiset(s) - multiset{x}
  {
    assert s == [s[0]] + s[1..];
    if s[0] == x then s[1..]
    else [s[0]] + RemoveFirst(s[1..], x)
  }

  /** Removing position `i` of a tail is removing position `i + 1` of the whole list. */
  lemma ConsDropAt(h: int, t: seq<int>, i: nat)
    requires i < |t|
    ensures [h] + (t[..i] + t[i + 1..]) == ([h] + t)[..i + 1] + ([h] + t)[i + 2..]
  {
    assert ([h] + t)[..i + 1] == [h] + t[..i];
    assert ([h] + t)[i + 2..] == t[i + 1..];
  }

  /** What goes is the first `x`; everything else keeps its order. */
  lemma {:induction false} RemoveFirstAt(s: seq<int>, x: int)
    requires x in s
    ensures RemoveFirst(s, x) == s[..FirstIndex(s, x)] + s[FirstIndex(s, x) + 1..]
  {
    if s[0] != x {
      var t := s[1..];
      RemoveFirstAt(t, x);
      ConsDropAt(s[0], t, FirstIndex(t, x));
      assert [s[0]] + t == s;
    }
  }

  /** Position `k` of `s` without position `i`. */
  lemma DropAtIndex(s: seq<int>, i: nat, k: nat)
    requires i < |s| && k < |s| - 1
    ensures (s[..i] + s[i + 1..])[k] == s[if k < i then k else k + 1]
  {
  }

  lemma RemoveFirstKeepsSorted(s: seq<int>, x: int)
    requires x in s && Sorted(s)
    ensures Sorted(RemoveFirst(s, x))
  {
    var i := FirstIndex(s, x);
    var r := RemoveFirst(s, x);
    RemoveFirstAt(s, x);
    forall a, b | 0 <= a < b < |r| ensures r[a] <= r[b] {
      DropAtIndex(s, i, a);
      DropAtIndex(s, i, b);
    }
  }

  /** Releasing the ticket just appended gives back the list as it was: every
      older ticket equal to it sits at the end, so whichever copy goes, the
      rest is the same. */
  lemma {:induction false} ReleaseOwnTicket(s: seq<int>, t: int)
    requires Sorted(s) && forall k :: 0 <= k < |s| ==> s[k] <= t
    ensures RemoveFirst(s + [t], t) == s
  {
    var full := s + [t];
    if s != [] {
      assert full[0] == s[0] && full[1..] == s[1..] + [t];
      if s[0] == t {
        forall k | 0 <= k < |s| ensures full[1..][k] == s[k] {
          assert s[0] <= s[k];
          if k + 1 < |s| {
            assert s[0] <= s[k + 1];
          }
        }
      } else {
        ReleaseOwnTicket(s[1..], t);
        assert s == [s[0]] + s[1..];
      }
    }
  }

  // ---------------------------------------------------------------- pairing

  /** The body the endpoint sends when two elements do not combine. */
  const Sentinel: ResultDict := ResultDict("Nothing", "", false)

  /** The element `pair` builds from a reply body. */
  function DecodePair(body: ResultDict): (e: Element)
    ensures body == Sentinel ==> e == Nothing
    ensures body != Sentinel ==>
      (Truthy(e) && e.name == Some(body.result) && e.emoji == Some(body.emoji) && e.isFirstDiscovery == Some(body.isNew))
  {
    if body == Sentinel then Nothing
    else Element(Some(body.result), Some(body.emoji), Some(body.isNew))
  }

  /** Only the exact sentinel fails: a real element may be called "Nothing". */
  lemma SentinelMatchIsExact(emoji: string, isNew: bool)
    requires emoji != "" || isNew
    ensures DecodePair(ResultDict("Nothing", emoji, isNew)) != Nothing
    ensures Truthy(DecodePair(ResultDict("Nothing", emoji, isNew)))
  {
  }

  /** A failed pairing compares equal to `None`; a successful one never does. */
  lemma PairResultEqualsNoneIffSentinel(body: ResultDict)
    ensures Equals(DecodePair(body), PyNone) <==> body == Sentinel
  {
  }

  /** What a reply amounts to once the gate has let the request through. */
  function ReplyOutcome(reply: Http.Reply): (r: Result<Http.Response>)
    ensures r.Ok? <==> reply.Received? && Http.Ok(reply.response.status)
    ensures r.Ok? ==> r.value == reply.response
    ensures reply.TransportFailure? ==> r == Err(TransportError)
    ensures reply.Received? && !Http.Ok(reply.response.status) ==>
      r == Err(ClientResponseError(Http.RaiseForStatus(reply.response.status).value.message))
  {
    match reply
    case TransportFailure => Err(TransportError)
    case Received(response) =>
      match Http.RaiseForStatus(response.status)
      case Some(raised) => Err(ClientResponseError(raised.message))
      case None => Ok(response)
  }
  /** Whether a response reaches the client. A closed HTTP session raises before
      sending anything (the request goes through `aiohttp.ClientSession.get`), and
      a transport failure raises before any response exists. */
  predicate Responded(s: SessionState, reply: Http.Reply) {
    !s.Closed? && reply.Received?
  }

  /** What the request cycle amounts to on a started session: the closed HTTP
      session's `RuntimeError`, or the reply's outcome. */
  function RequestOutcome(s: SessionState, reply: Http.Reply): (r: Result<Http.Response>)
    ensures s.Closed? ==> r == Err(RuntimeError(SessionClosedMessage))
    ensures !s.Closed? ==> r == ReplyOutcome(reply)
    ensures r.Ok? ==> Responded(s, reply) && r.value == reply.response
  {
    if s.Closed? then Err(RuntimeError(SessionClosedMessage)) else ReplyOutcome(reply)
  }


  // ---------------------------------------------------------------- discoveries store

  function ToElement(d: RawDiscovery): Element {
    Element(d.name, d.emoji, d.isFirstDiscovery)
  }

  function ToRecord(e: Element): RawDiscovery {
    RawDiscovery(e.name, e.emoji, e.isFirstDiscovery)
  }

  function ToElements(records: seq<RawDiscovery>): (els: seq<Element>)
    ensures |els| == |records|
    ensures forall i :: 0 <= i < |records| ==> els[i] == ToElement(records[i])
  {
    seq(|records|, i requires 0 <= i < |records| => ToElement(records[i]))
  }

  /** Turning elements back into records gives the store back: the cache loses nothing. */
  lemma CacheRoundTrip(records: seq<RawDiscovery>)
    ensures seq(|records|, i requires 0 <= i < |records| => ToRecord(ToElements(records)[i])) == records
  {
  }

  predicate HasName(store: seq<RawDiscovery>, name: Option<string>) {
    exists i :: 0 <= i < |store| && store[i].name == name
  }

  ghost predicate NamesDistinct(store: seq<RawDiscovery>) {
    forall i, j :: 0 <= i < j < |store| ==> store[i].name != store[j].name
  }

  /** `_update_discoveries`: the new list when the name was absent, None otherwise. */
  function AppendIfAbsent(store: seq<RawDiscovery>, record: RawDiscovery): (r: Option<seq<RawDiscovery>>)
    ensures r.None? <==> HasName(store, record.name)
    ensures r.Some? ==> r.value == store + [record]
  {
    if HasName(store, record.name) then None else Some(store + [record])
  }

  /** The file contents after `_update_discoveries`. */
  function StoredAfter(store: seq<RawDiscovery>, record: RawDiscovery): seq<RawDiscovery> {
    match AppendIfAbsent(store, record)
    case Some(updated) => updated
    case None => store
  }

  /** After an update the name is stored, and a store without repeated names keeps that property. */
  lemma StoredAfterKeepsNamesDistinct(store: seq<RawDiscovery>, record: RawDiscovery)
    ensures HasName(StoredAfter(store, record), record.name)
    ensures NamesDistinct(store) ==> NamesDistinct(StoredAfter(store, record))
  {
    if !HasName(store, record.name) {
      var s' := store + [record];
      assert s'[|store|].name == record.name;
    }
  }

  /** The first record under a name wins: a later one with the same name changes nothing. */
  lemma FirstRecordWins(store: seq<RawDiscovery>, first: RawDiscovery, later: RawDiscovery)
    requires first.name == later.name
    ensures StoredAfter(StoredAfter(store, first), later) == StoredAfter(store, first)
  {
    StoredAfterKeepsNamesDistinct(store, first);
  }

  /** `reset`: the seed, unless the file is missing and may not be created. */
  function Reset(path: string, fileFound: bool, makeFile: bool): (r: Result<seq<RawDiscovery>>)
    ensures r.Err? <==> !fileFound && !makeFile
    ensures r.Err? ==> r.error == FileNotFoundError(NotFoundMessage(path))
    ensures r.Ok? ==> r.value == Constants.StartingDiscoveries
  {
    if !fileFound && !makeFile then Err(FileNotFoundError(NotFoundMessage(path)))
    else Ok(Constants.StartingDiscoveries)
  }

  /** Right after a reset the store holds four records with distinct names. */
  lemma ResetStoreIsSeed(path: string, fileFound: bool, makeFile: bool)
    requires fileFound || makeFile
    ensures |Reset(path, fileFound, makeFile).value| == 4
    ensures NamesDistinct(Reset(path, fileFound, makeFile).value)
  {
    Constants.SeedShape();
    Constants.SeedNamesDistinct();
  }

  /** The position of the first element with the given name, or `|els|` when none has it. */
  function FindNamedIndex(els: seq<Element>, name: Option<string>): (i: nat)
    ensures i <= |els|
    ensures forall j :: 0 <= j < i ==> els[j].name != name
    ensures i < |els| ==> els[i].name == name
  {
    if els == [] then 0
    else if els[0].name == name then 0
    else 1 + FindNamedIndex(els[1..], name)
  }

  /** The first element with the given name (the cached branch of `get_discovery`,
      `self._discoveries[self._discoveries.index(dummy)]`). */
  function FindNamed(els: seq<Element>, name: Option<string>): (r: Option<Element>)
    ensures r.None? <==> forall i :: 0 <= i < |els| ==> els[i].name != name
    ensures r.Some? ==> r.value.name == name && r.value in els
    ensures r.Some? ==> r.value == els[FindNamedIndex(els, name)]
  {
    var i := FindNamedIndex(els, name);
    if i < |els| then Some(els[i]) else None
  }

  /** The value `e.name == dummy` takes in the file branch of `get_discovery`: a
      string name compares unequal; for a None name Python falls back to
      `dummy.__eq__(None)`, which holds because `dummy` has no emoji and is falsy. */
  function NameMatchesDummy(name: string): Element -> bool {
    (e: Element) => Equals(Element(Some(name), None, None), if e.name.None? then PyNone else NotProtocol)
  }

  lemma NameMatchesDummyOnlyForUnnamed(name: string, e: Element)
    ensures NameMatchesDummy(name)(e) <==> e.name.None?
  {
  }

  /** `get_discovery(name, from_file=True)` as written. */
  function FromFileLookup(store: seq<RawDiscovery>, name: string): (r: Option<Element>)
    ensures r.Some? ==> r.value.name.None?
  {
    var found := Kept(ToElements(store), Some(NameMatchesDummy(name)));
    if |found| > 0 then
      assert found[0] in found;
      NameMatchesDummyOnlyForUnnamed(name, found[0]);
      Some(found[0])
    else None
  }

  /** The file lookup misses a name that is in the file: after a reset,
      looking up "Water" from the file finds nothing. */
  lemma FromFileLookupMissesWater()
    ensures FromFileLookup(Constants.StartingDiscoveries, "Water").None?
    ensures ToElement(Constants.StartingDiscoveries[0]).name == Some("Water")
  {
    var els := ToElements(Constants.StartingDiscoveries);
    Constants.SeedShape();
    forall e | e in els ensures !NameMatchesDummy("Water")(e) {
      var i :| 0 <= i < |els| && els[i] == e;
    }
  }

  /** The file lookup as intended: the first record in the file with that name. */
  function FromFileLookupByName(store: seq<RawDiscovery>, name: string): (r: Option<Element>)
    ensures r.Some? ==> r.value.name == Some(name) && r.value in ToElements(store)
    ensures r.None? <==> !HasName(store, Some(name))
  {
    FindNamed(ToElements(store), Some(name))
  }

  /** The check the intended file lookup filters with: `e.name == name`. */
  function NameIs(name: string): Element -> bool {
    (e: Element) => e.name == Some(name)
  }

  /** Filtering on the name and taking the first hit is the first element with that name. */
  lemma {:induction false} FirstKeptIsFirstNamed(els: seq<Element>, name: string)
    ensures FindNamed(els, Some(name))
      == (if |Kept(els, Some(NameIs(name)))| > 0 then Some(Kept(els, Some(NameIs(name)))[0]) else None)
  {
    if els != [] {
      assert els == [els[0]] + els[1..];
      if els[0].name != Some(name) {
        FirstKeptIsFirstNamed(els[1..], name);
        assert FindNamedIndex(els, Some(name)) == 1 + FindNamedIndex(els[1..], Some(name));
      }
    }
  }

  /** The intended lookup finds what the file holds, which the written one does not. */
  lemma FromFileLookupByNameFindsWater()
    ensures FromFileLookupByName(Constants.StartingDiscoveries, "Water") == Some(Element(Some("Water"), Some("\U{1F4A7}"), Some(false)))
  {
    Constants.SeedShape();
  }

  // ---------------------------------------------------------------- the client

  class Client {
    const apiRateLimit: nat
    const manualControl: bool
    var session: SessionState
    /** The monotonic clock. */
    var now: int
    /** `_requests`: the timestamp of every request not yet answered. */
    var requests: seq<int>
    /** The discoveries storage file. */
    var store: seq<RawDiscovery>
    /** `_discoveries` and its public copy `discoveries`. */
    var cache: seq<Element>
    var discoveries: seq<Element>

    /** Tickets are oldest first and none lies in the future, so `requests[0]`
        is the oldest outstanding request. */
    ghost predicate Valid()
      reads this
    {
      Sorted(requests) && forall k :: 0 <= k < |requests| ==> requests[k] <= now
    }

    constructor Init(apiRateLimit: nat, manualControl: bool, store: seq<RawDiscovery>, clock: int)
      ensures Valid()
      ensures this.apiRateLimit == apiRateLimit && this.manualControl == manualControl
      ensures this.store == store && now == clock
      ensures session == NotStarted && requests == [] && cache == [] && discoveries == []
    {
      this.apiRateLimit := apiRateLimit;
      this.manualControl := manualControl;
      this.store := store;
      now := clock;
      session := NotStarted;
      requests := [];
      cache := [];
      discoveries := [];
    }

    /** `InfiniteCraft(...)`. `fileExists` and `fileContents` describe the storage
        file before construction; `clock` is the clock at construction. */
    static method Create(apiRateLimit: int, manualControl: bool, path: string, fileExists: bool,
                         fileContents: seq<RawDiscovery>, makeFile: bool, doReset: bool, clock: int)
      returns (r: Result<Client>)
      ensures apiRateLimit < 0 ==> r == Err(ValueError(RateLimitMessage))
      ensures apiRateLimit >= 0 && !fileExists && !makeFile ==> r == Err(FileNotFoundError(NotFoundMessage(path)))
      ensures apiRateLimit >= 0 && (fileExists || makeFile) ==>
        && r.Ok? && fresh(r.value) && r.value.Valid()
        && r.value.apiRateLimit == apiRateLimit && r.value.manualControl == manualControl
        && r.value.session == NotStarted && r.value.requests == [] && r.value.now == clock
        && r.value.store == (if !fileExists || doReset then Constants.StartingDiscoveries else fileContents)
        && r.value.cache == ToElements(r.value.store) && r.value.discoveries == r.value.cache
    {
      if apiRateLimit < 0 {
        return Err(ValueError(RateLimitMessage));
      }
      var contents := fileContents;
      var reset := false;
      if !fileExists {
        if !makeFile {
          return Err(FileNotFoundError(NotFoundMessage(path)));
        }
        var written := Reset(path, fileExists, makeFile);
        contents := written.value;
        reset := true;
      }
      if doReset && !reset {
        var written := Reset(path, true, false);
        contents := written.value;
      }
      var c := new Client.Init(apiRateLimit, manualControl, contents, clock);
      var _ := c.GetDiscoveries(true, None);
      r := Ok(c);
    }

    /** The `closed` property. */
    function ClosedFlag(): (c: Option<bool>)
      reads this
      ensures c.None? <==> session.NotStarted?
      ensures c == Some(true) <==> session.Closed?
      ensures c == Some(false) <==> session.Open?
    {
      ClosedProperty(session)
    }

    method Start() returns (o: Outcome)
      modifies this`session
      ensures StartTransition(old(session)).Ok? ==> o == Pass && session == StartTransition(old(session)).value
      ensures StartTransition(old(session)).Err? ==> o == Fail(StartTransition(old(session)).error) && session == old(session)
    {
      match session
      case NotStarted =>
        session := Open;
        o := Pass;
      case Open =>
        o := Fail(RuntimeError(AlreadyRunningMessage));
      case Closed =>
        o := Fail(RuntimeError(SessionClosedMessage));
    }

    method Close() returns (o: Outcome)
      modifies this`session
      ensures CloseTransition(old(session)).Ok? ==> o == Pass && session == CloseTransition(old(session)).value
      ensures CloseTransition(old(session)).Err? ==> o == Fail(CloseTransition(old(session)).error) && session == old(session)
    {
      match session
      case NotStarted =>
        o := Fail(RuntimeError(NotStartedMessage));
      case Open =>
        session := Closed;
        o := Pass;
      case Closed =>
        o := Fail(RuntimeError(AlreadyClosedMessage));
    }

    /** `async with client:` entry. */
    method AEnter() returns (o: Outcome)
      modifies this`session
      ensures EnterTransition(manualControl, old(session)).Ok? ==> o == Pass && session == EnterTransition(manualControl, old(session)).value
      ensures EnterTransition(manualControl, old(session)).Err? ==> o == Fail(EnterTransition(manualControl, old(session)).error) && session == old(session)
    {
      if !manualControl {
        o := Start();
      } else {
        o := Pass;
      }
    }

    /** `async with client:` exit. */
    method AExit() returns (o: Outcome)
      modifies this`session
      ensures ExitTransition(manualControl, old(session)).Ok? ==> o == Pass && session == ExitTransition(manualControl, old(session)).value
      ensures ExitTransition(manualControl, old(session)).Err? ==> o == Fail(ExitTransition(manualControl, old(session)).error) && session == old(session)
    {
      if !manualControl {
        o := Close();
      } else {
        o := Pass;
      }
    }

    /** `asyncio.sleep(ticks)`. */
    method Sleep(ticks: nat)
      requires Valid()
      modifies this`now
      ensures Valid() && now == old(now) + ticks
    {
      now := now + ticks;
    }

    /** `_wait_for_request`: take a ticket stamped with the current time, then
        sleep until the gate admits it. */
    method WaitForRequest() returns (ticket: int)
      requires Valid()
      modifies this`requests, this`now
      ensures Valid()
      ensures ticket == old(now) && requests == old(requests) + [ticket]
      ensures now == AdmittedAt(requests, apiRateLimit, old(now))
      ensures |requests| <= apiRateLimit || requests[0] + Window <= now
    {
      ticket := now;
      requests := requests + [ticket];
      while |requests| > apiRateLimit && requests[0] + Window > now
        invariant Valid() && requests == old(requests) + [ticket]
        invariant now != old(now) ==> now == requests[0] + Window && Throttled(requests, apiRateLimit, old(now))
        decreases requests[0] + Window - now
      {
        Sleep(requests[0] + Window - now);
      }
    }

    /** `_done_with_request`: give the ticket back. */
    method DoneWithRequest(ticket: int) returns (o: Outcome)
      requires Valid()
      modifies this`requests
      ensures Valid()
      ensures ticket in old(requests) ==> o == Pass && requests == RemoveFirst(old(requests), ticket)
      ensures ticket !in old(requests) ==> o == Fail(ValueError(RemoveMissingMessage)) && requests == old(requests)
    {
      if ticket in requests {
        RemoveFirstKeepsSorted(requests, ticket);
        requests := RemoveFirst(requests, ticket);
        forall k | 0 <= k < |requests| ensures requests[k] <= now {
          assert requests[k] in multiset(requests);
          assert requests[k] in multiset(old(requests));
        }
        o := Pass;
      } else {
        o := Fail(ValueError(RemoveMissingMessage));
      }
    }

    /** The request cycle `ping` and `pair` share: wait at the gate, send, give the
        ticket back as soon as a response exists, then check its status. A
        closed HTTP session or a transport exception leaves the ticket outstanding. */
    method Dispatch(reply: Http.Reply) returns (r: Result<Http.Response>)
      requires Valid()
      modifies this`requests, this`now
      ensures Valid()
      ensures r == RequestOutcome(old(session), reply)
      ensures requests == if Responded(old(session), reply) then old(requests) else old(requests) + [old(now)]
      ensures now == AdmittedAt(old(requests) + [old(now)], apiRateLimit, old(now))
                     + (if Responded(old(session), reply) then reply.response.latency else 0)
    {
      var ticket := WaitForRequest();
      if session.Closed? {
        return Err(RuntimeError(SessionClosedMessage));
      }
      match reply
      case TransportFailure =>
        r := Err(TransportError);
      case Received(response) =>
        now := now + response.latency;
        ReleaseOwnTicket(old(requests), ticket);
        var done := DoneWithRequest(ticket);
        r := ReplyOutcome(reply);
    }

    /** `ping`: the reply's latency, once the request went through. */
    method Ping(reply: Http.Reply) returns (r: Result<nat>)
      requires Valid()
      modifies this`requests, this`now
      ensures Valid()
      ensures old(session).NotStarted? ==> r == Err(RuntimeError(NotStartedMessage)) && requests == old(requests) && now == old(now)
      ensures !old(session).NotStarted? ==>
        && (r.Ok? <==> RequestOutcome(old(session), reply).Ok?)
        && (r.Ok? ==> r.value == reply.response.latency)
        && (r.Err? ==> r.error == RequestOutcome(old(session), reply).error)
        && requests == (if Responded(old(session), reply) then old(requests) else old(requests) + [old(now)])
        && now == AdmittedAt(old(requests) + [old(now)], apiRateLimit, old(now))
                  + (if Responded(old(session), reply) then reply.response.latency else 0)
      ensures old(session).Closed? ==> r == Err(RuntimeError(SessionClosedMessage)) && requests == old(requests) + [old(now)]
    {
      if session.NotStarted? {
        return Err(RuntimeError(NotStartedMessage));
      }
      var response := Dispatch(reply);
      match response
      case Err(e) => r := Err(e);
      case Ok(resp) => r := Ok(resp.latency);
    }

    /** `pair(first, second, store=storeResult)`. */
    method Pair(first: Element, second: Element, storeResult: bool, reply: Http.Reply) returns (r: Result<Element>)
      requires Valid()
      modifies this`requests, this`now, this`store, this`cache, this`discoveries
      ensures Valid()
      ensures old(session).NotStarted? ==>
        && r == Err(RuntimeError(NotStartedMessage))
        && requests == old(requests) && now == old(now)
        && store == old(store) && cache == old(cache) && discoveries == old(discoveries)
      ensures !old(session).NotStarted? ==>
        && requests == (if Responded(old(session), reply) then old(requests) else old(requests) + [old(now)])
        && now == AdmittedAt(old(requests) + [old(now)], apiRateLimit, old(now))
                  + (if Responded(old(session), reply) then reply.response.latency else 0)
        && (RequestOutcome(old(session), reply).Err? ==> r == Err(RequestOutcome(old(session), reply).error))
        && (RequestOutcome(old(session), reply).Ok? ==> r == Ok(DecodePair(reply.response.body)))
      ensures !old(session).NotStarted? && storeResult && RequestOutcome(old(session), reply).Ok? && reply.response.body != Sentinel ==>
        && store == StoredAfter(old(store), ToRecord(DecodePair(reply.response.body)))
        && cache == ToElements(store) && discoveries == cache
      ensures old(session).NotStarted? || !storeResult || RequestOutcome(old(session), reply).Err? || reply.response.body == Sentinel ==>
        store == old(store) && cache == old(cache) && discoveries == old(discoveries)
      ensures old(session).Closed? ==>
        && r == Err(RuntimeError(SessionClosedMessage)) && requests == old(requests) + [old(now)]
        && store == old(store) && cache == old(cache) && discoveries == old(discoveries)
    {
      if session.NotStarted? {
        return Err(RuntimeError(NotStartedMessage));
      }
      var response := Dispatch(reply);
      if response.Err? {
        return Err(response.error);
      }
      var body := response.value.body;
      if body == Sentinel {
        return Ok(Nothing);
      }
      var result := Element(Some(body.result), Some(body.emoji), Some(body.isNew));
      if storeResult {
        var _ := UpdateDiscoveries(result.name, result.emoji, result.isFirstDiscovery);
        cache := ToElements(store);
        discoveries := cache;
      }
      r := Ok(result);
    }

    /** `_update_discoveries`. */
    method UpdateDiscoveries(name: Option<string>, emoji: Option<string>, isFirstDiscovery: Option<bool>)
      returns (r: Option<seq<RawDiscovery>>)
      modifies this`store
      ensures r == AppendIfAbsent(old(store), RawDiscovery(name, emoji, isFirstDiscovery))
      ensures store == StoredAfter(old(store), RawDiscovery(name, emoji, isFirstDiscovery))
    {
      var record := RawDiscovery(name, emoji, isFirstDiscovery);
      if HasName(store, record.name) {
        return None;
      }
      store := store + [record];
      r := Some(store);
    }

    /** The loop of `get_discoveries`: each stored record as an element, kept when `check` allows. */
    method Collect(check: Option<Element -> bool>) returns (found: seq<Element>)
      ensures found == Kept(ToElements(store), check)
    {
      var els := ToElements(store);
      found := [];
      var i := 0;
      while i < |els|
        invariant 0 <= i <= |els|
        invariant found == Kept(els[..i], check)
      {
        var element := ToElement(store[i]);
        assert els[..i + 1] == els[..i] + [element];
        KeptAppend(els[..i], element, check);
        if check.None? || check.value(element) {
          found := found + [element];
        }
        i := i + 1;
      }
      assert els[..i] == els;
    }

    /** `get_discoveries(set_value=..., check=...)`. */
    method GetDiscoveries(setValue: bool, check: Option<Element -> bool>) returns (found: seq<Element>)
      modifies this`cache, this`discoveries
      ensures found == Kept(ToElements(store), check)
      ensures setValue ==> cache == found && discoveries == found
      ensures !setValue ==> cache == old(cache) && discoveries == old(discoveries)
    {
      found := Collect(check);
      if setValue {
        cache := found;
        discoveries := found;
      }
    }

    /** `get_discovery(name, from_file=...)`, with the file branch comparing names
        as intended (`FromFileLookup` is the branch as written). */
    method GetDiscovery(name: string, fromFile: bool) returns (r: Option<Element>)
      ensures fromFile ==> r == FromFileLookupByName(store, name)
      ensures !fromFile ==> r == FindNamed(cache, Some(name))
    {
      if fromFile {
        var found := Collect(Some(NameIs(name)));
        r := if |found| > 0 then Some(found[0]) else None;
        FirstKeptIsFirstNamed(ToElements(store), name);
      } else {
        r := FindNamed(cache, Some(name));
      }
    }
  }
}
