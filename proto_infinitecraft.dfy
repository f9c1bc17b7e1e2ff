/** The older prototype client: a two-state session, pairing without a rate
    gate, and two storage files — discoveries as `{name, is_first_discovery}`
    records and a separate name-to-emoji cache that keeps the first emoji
    written under each name. */
module ProtoInfiniteCraft {
  import opened PyText
  import opened PyList
  import opened Types
  import opened ProtoElements
  import opened ProtoConstants
  import Http

  datatype Error =
    | FileNotFoundError(message: string)
    | TypeError(message: string)
    | RuntimeError(message: string)
    | ClientResponseError(status: int)
    | TransportError

  datatype Result<+T> = Ok(value: T) | Err(error: Error)

  datatype Outcome = Pass | Fail(error: Error)

  const AlreadyClosedMessage: string := "This InfiniteCraft session is already closed"
  const ElementClassMessage: string := "element_cls must be a subclass of 'Element'"
  const FirstTypeMessage: string := "first must be an instance of 'Element'"
  const SecondTypeMessage: string := "second must be an instance of 'Element'"
  /** What the HTTP session raises when asked to send after it was closed. */
  const SessionClosedMessage: string := "Session is closed"

  function NotFoundMessage(path: string): string {
    "File '" + path + "' not found"
  }

  /** The body the endpoint sends when two elements do not combine. */
  const Sentinel: ResultDict := ResultDict("Nothing", "", false)

  /** What prototype `pair` returns for a reply body: None on the sentinel. */
  function DecodePair(body: ResultDict): (e: Option<ProtoElement>)
    ensures e.None? <==> body == Sentinel
    ensures e.Some? ==>
      (e.value.name == Some(body.result) && e.value.emoji == Some(body.emoji) && e.value.isFirstDiscovery == Some(body.isNew))
  {
    if body == Sentinel then None
    else Some(ProtoElement(Some(body.result), Some(body.emoji), Some(body.isNew)))
  }

  // ---------------------------------------------------------------- emoji cache

  /** `_update_emojis`: the new map when the name had no emoji yet, None otherwise. */
  function AddEmojiIfAbsent(emojis: map<string, string>, name: string, emoji: string): (r: Option<map<string, string>>)
    ensures r.None? <==> name in emojis
    ensures r.Some? ==> r.value == emojis[name := emoji]
  {
    if name in emojis then None else Some(emojis[name := emoji])
  }

  /** The emoji cache file after `_update_emojis`. */
  function EmojisAfter(emojis: map<string, string>, name: string, emoji: string): map<string, string> {
    match AddEmojiIfAbsent(emojis, name, emoji)
    case Some(updated) => updated
    case None => emojis
  }

  /** The first emoji written under a name stays; no other entry changes. */
  lemma FirstEmojiWins(emojis: map<string, string>, name: string, first: string, later: string)
    ensures name in EmojisAfter(EmojisAfter(emojis, name, first), name, later)
    ensures EmojisAfter(EmojisAfter(emojis, name, first), name, later)[name]
      == if name in emojis then emojis[name] else first
    ensures EmojisAfter(emojis, name, first).Keys == emojis.Keys + {name}
    ensures forall n :: n in emojis ==> EmojisAfter(emojis, name, first)[n] == emojis[n]
  {
  }

  // ---------------------------------------------------------------- discoveries file

  /** `_update_discoveries`: the new list when this exact record was absent, None otherwise. */
  function AppendRecordIfAbsent(records: seq<Record>, record: Record): (r: Option<seq<Record>>)
    ensures r.None? <==> record in records
    ensures r.Some? ==> r.value == records + [record]
  {
    if record in records then None else Some(records + [record])
  }

  function RecordsAfter(records: seq<Record>, record: Record): seq<Record> {
    match AppendRecordIfAbsent(records, record)
    case Some(updated) => updated
    case None => records
  }

  ghost predicate NoRepeatedRecords(records: seq<Record>) {
    forall i, j :: 0 <= i < j < |records| ==> records[i] != records[j]
  }

  /** Records never repeat, and the new record is stored afterwards. */
  lemma RecordsAfterKeepsNoRepeats(records: seq<Record>, record: Record)
    ensures record in RecordsAfter(records, record)
    ensures NoRepeatedRecords(records) ==> NoRepeatedRecords(RecordsAfter(records, record))
  {
    if record !in records {
      assert (records + [record])[|records|] == record;
    }
  }

  /** Deduplication is on the whole record: the same name with another flag is
      stored a second time, so names can repeat. */
  lemma SameNameOtherFlagIsStoredAgain(records: seq<Record>, name: string)
    requires Record(name, false) in records && Record(name, true) !in records
    ensures RecordsAfter(records, Record(name, true)) == records + [Record(name, true)]
    ensures exists i, j ::
      (0 <= i < j < |RecordsAfter(records, Record(name, true))|
       && RecordsAfter(records, Record(name, true))[i].name == name
       && RecordsAfter(records, Record(name, true))[j].name == name)
  {
    var after := RecordsAfter(records, Record(name, true));
    var i :| 0 <= i < |records| && records[i] == Record(name, false);
    assert after[i].name == name && after[|records|].name == name;
  }

  // ---------------------------------------------------------------- joining

  /** One file record as an element, its emoji looked up by name (`emojis.get(name)`). */
  function Joined(record: Record, emojis: map<string, string>): (e: ProtoElement)
    ensures e.name == Some(record.name) && e.isFirstDiscovery == Some(record.isFirstDiscovery)
    ensures e.emoji.Some? <==> record.name in emojis
    ensures e.emoji.Some? ==> e.emoji.value == emojis[record.name]
  {
    ProtoElement(Some(record.name), if record.name in emojis then Some(emojis[record.name]) else None, Some(record.isFirstDiscovery))
  }

  function JoinAll(records: seq<Record>, emojis: map<string, string>): (els: seq<ProtoElement>)
    ensures |els| == |records|
    ensures forall i :: 0 <= i < |records| ==> els[i] == Joined(records[i], emojis)
  {
    seq(|records|, i requires 0 <= i < |records| => Joined(records[i], emojis))
  }

  /** After a successful pairing every element under the result's name shows one
      emoji: the first ever written for that name, not necessarily the reply's. */
  lemma PairedNameShowsFirstEmoji(records: seq<Record>, emojis: map<string, string>, body: ResultDict, i: nat)
    requires body != Sentinel
    requires i < |RecordsAfter(records, Record(body.result, body.isNew))|
    requires RecordsAfter(records, Record(body.result, body.isNew))[i].name == body.result
    ensures JoinAll(RecordsAfter(records, Record(body.result, body.isNew)), EmojisAfter(emojis, body.result, body.emoji))[i].emoji
      == Some(if body.result in emojis then emojis[body.result] else body.emoji)
  {
  }

  /** `reset`: both files must exist; then both get their seed. */
  function Reset(discoveriesPath: string, discoveriesExist: bool, emojiPath: string, emojisExist: bool)
    : (r: Result<(seq<Record>, map<string, string>)>)
    ensures !discoveriesExist ==> r == Err(FileNotFoundError(NotFoundMessage(discoveriesPath)))
    ensures discoveriesExist && !emojisExist ==> r == Err(FileNotFoundError(NotFoundMessage(emojiPath)))
    ensures discoveriesExist && emojisExist ==> r == Ok((StartingDiscoveries, StartingEmojiCache))
  {
    if !discoveriesExist then Err(FileNotFoundError(NotFoundMessage(discoveriesPath)))
    else if !emojisExist then Err(FileNotFoundError(NotFoundMessage(emojiPath)))
    else Ok((StartingDiscoveries, StartingEmojiCache))
  }

  /** After a reset every seeded element carries its emoji. */
  lemma ResetJoinsEveryEmoji()
    ensures forall e :: e in JoinAll(StartingDiscoveries, StartingEmojiCache) ==> e.emoji.Some?
  {
    var els := JoinAll(StartingDiscoveries, StartingEmojiCache);
    EmojiCacheCoversSeed();
    forall e | e in els ensures e.emoji.Some? {
      var i :| 0 <= i < |els| && els[i] == e;
      assert StartingDiscoveries[i].name in StartingEmojiCache.Keys;
    }
  }

  // ---------------------------------------------------------------- the client

  /** Whether `pair` gets as far as storing: both arguments are elements, the
      session is still open, the request succeeded, and the body is not the sentinel. */
  predicate Stores(first: Value, second: Value, closed: bool, reply: Http.Reply) {
    first.Instance? && second.Instance? && !closed && reply.Received? && Http.Ok(reply.response.status)
    && reply.response.body != Sentinel
  }

  /** What prototype `pair` returns for its arguments, the session's state and the
      reply. A closed HTTP session raises before sending. */
  function PairOutcome(first: Value, second: Value, closed: bool, reply: Http.Reply): (r: Result<Option<ProtoElement>>)
    ensures r.Ok? && r.value.Some? <==> Stores(first, second, closed, reply)
    ensures first.Other? ==> r == Err(TypeError(FirstTypeMessage))
    ensures first.Instance? && second.Other? ==> r == Err(TypeError(SecondTypeMessage))
    ensures first.Instance? && second.Instance? && closed ==> r == Err(RuntimeError(SessionClosedMessage))
    ensures first.Instance? && second.Instance? && !closed && reply.TransportFailure? ==> r == Err(TransportError)
    ensures first.Instance? && second.Instance? && !closed && reply.Received? && !Http.Ok(reply.response.status) ==>
      r == Err(ClientResponseError(reply.response.status))
    ensures first.Instance? && second.Instance? && !closed && reply.Received? && Http.Ok(reply.response.status) ==>
      r == Ok(DecodePair(reply.response.body))
  {
    if first.Other? then Err(TypeError(FirstTypeMessage))
    else if second.Other? then Err(TypeError(SecondTypeMessage))
    else if closed then Err(RuntimeError(SessionClosedMessage))
    else match reply
      case TransportFailure => Err(TransportError)
      case Received(response) =>
        if !Http.Ok(response.status) then Err(ClientResponseError(response.status))
        else Ok(DecodePair(response.body))
  }

  class Client {
    /** `_closed` and its public copy `closed`. */
    var closed: bool
    /** The discoveries file and the emoji cache file. */
    var records: seq<Record>
    var emojis: map<string, string>
    /** `_discoveries` and `discoveries`. */
    var cache: seq<ProtoElement>
    var discoveries: seq<ProtoElement>

    constructor Init(records: seq<Record>, emojis: map<string, string>)
      ensures !closed && this.records == records && this.emojis == emojis
      ensures cache == [] && discoveries == []
    {
      closed := false;
      this.records := records;
      this.emojis := emojis;
      cache := [];
      discoveries := [];
    }

    /** `InfiniteCraft(...)`: both files must exist and `element_cls` must be an
        element class; `do_reset` then rewrites both files. */
    static method Create(discoveriesPath: string, discoveriesExist: bool, emojiPath: string, emojisExist: bool,
                         elementClassIsElement: bool, doReset: bool,
                         fileRecords: seq<Record>, fileEmojis: map<string, string>)
      returns (r: Result<Client>)
      ensures !discoveriesExist ==> r == Err(FileNotFoundError(NotFoundMessage(discoveriesPath)))
      ensures discoveriesExist && !emojisExist ==> r == Err(FileNotFoundError(NotFoundMessage(emojiPath)))
      ensures discoveriesExist && emojisExist && !elementClassIsElement ==> r == Err(TypeError(ElementClassMessage))
      ensures discoveriesExist && emojisExist && elementClassIsElement ==>
        && r.Ok? && fresh(r.value) && !r.value.closed
        && r.value.records == (if doReset then StartingDiscoveries else fileRecords)
        && r.value.emojis == (if doReset then StartingEmojiCache else fileEmojis)
        && r.value.cache == JoinAll(r.value.records, r.value.emojis) && r.value.discoveries == r.value.cache
    {
      if !discoveriesExist {
        return Err(FileNotFoundError(NotFoundMessage(discoveriesPath)));
      }
      if !emojisExist {
        return Err(FileNotFoundError(NotFoundMessage(emojiPath)));
      }
      if !elementClassIsElement {
        return Err(TypeError(ElementClassMessage));
      }
      var records, emojis := fileRecords, fileEmojis;
      if doReset {
        var seeded := Reset(discoveriesPath, true, emojiPath, true);
        records, emojis := seeded.value.0, seeded.value.1;
      }
      var c := new Client.Init(records, emojis);
      var _ := c.GetDiscoveries(true, None);
      r := Ok(c);
    }

    /** `close`: the first call closes, any later one raises. */
    method Close() returns (o: Outcome)
      modifies this`closed
      ensures closed
      ensures !old(closed) ==> o == Pass
      ensures old(closed) ==> o == Fail(RuntimeError(AlreadyClosedMessage))
    {
      if !closed {
        closed := true;
        o := Pass;
      } else {
        o := Fail(RuntimeError(AlreadyClosedMessage));
      }
    }

    /** `async with` exit: always closes, so leaving a block after an explicit
        `close` raises. */
    method AExit() returns (o: Outcome)
      modifies this`closed
      ensures closed
      ensures !old(closed) ==> o == Pass
      ensures old(closed) ==> o == Fail(RuntimeError(AlreadyClosedMessage))
    {
      o := Close();
    }

    /** `_update_emojis`. */
    method UpdateEmojis(name: string, emoji: string) returns (r: Option<map<string, string>>)
      modifies this`emojis
      ensures r == AddEmojiIfAbsent(old(emojis), name, emoji)
      ensures emojis == EmojisAfter(old(emojis), name, emoji)
    {
      if name in emojis {
        return None;
      }
      emojis := emojis[name := emoji];
      r := Some(emojis);
    }

    /** `_update_discoveries`. */
    method UpdateDiscoveries(name: string, isFirstDiscovery: bool) returns (r: Option<seq<Record>>)
      modifies this`records
      ensures r == AppendRecordIfAbsent(old(records), Record(name, isFirstDiscovery))
      ensures records == RecordsAfter(old(records), Record(name, isFirstDiscovery))
    {
      var record := Record(name, isFirstDiscovery);
      if record in records {
        return None;
      }
      records := records + [record];
      r := Some(records);
    }

    /** `pair(first, second)`. After the type checks, a closed session raises
        RuntimeError "Session is closed" before any request is sent. */
    method Pair(first: Value, second: Value, reply: Http.Reply) returns (r: Result<Option<ProtoElement>>)
      modifies this`records, this`emojis, this`cache, this`discoveries
      ensures r == PairOutcome(first, second, old(closed), reply)
      ensures !Stores(first, second, old(closed), reply) ==>
        records == old(records) && emojis == old(emojis) && cache == old(cache) && discoveries == old(discoveries)
      ensures Stores(first, second, old(closed), reply) ==>
        && emojis == EmojisAfter(old(emojis), reply.response.body.result, reply.response.body.emoji)
        && records == RecordsAfter(old(records), Record(reply.response.body.result, reply.response.body.isNew))
        && cache == JoinAll(records, emojis) && discoveries == cache
    {
      if first.Other? {
        return Err(TypeError(FirstTypeMessage));
      }
      if second.Other? {
        return Err(TypeError(SecondTypeMessage));
      }
      if closed {
        return Err(RuntimeError(SessionClosedMessage));
      }
      if reply.TransportFailure? {
        return Err(TransportError);
      }
      var response := reply.response;
      if !Http.Ok(response.status) {
        return Err(ClientResponseError(response.status));
      }
      var body := response.body;
      if body == Sentinel {
        return Ok(None);
      }
      var result := ProtoElement(Some(body.result), Some(body.emoji), Some(body.isNew));
      var _ := UpdateEmojis(body.result, body.emoji);
      var _ := UpdateDiscoveries(body.result, body.isNew);
      cache := JoinAll(records, emojis);
      discoveries := cache;
      r := Ok(Some(result));
    }

    /** The loop of `get_discoveries`: each file record joined with its emoji,
        kept when `check` allows. */
    method Collect(check: Option<ProtoElement -> bool>) returns (found: seq<ProtoElement>)
      ensures found == Kept(JoinAll(records, emojis), check)
    {
      var els := JoinAll(records, emojis);
      found := [];
      var i := 0;
      while i < |records|
        invariant 0 <= i <= |records|
        invariant found == Kept(els[..i], check)
      {
        var element := Joined(records[i], emojis);
        assert els[..i + 1] == els[..i] + [element];
        KeptAppend(els[..i], element, check);
        if check.None? || check.value(element) {
          found := found + [element];
        }
        i := i + 1;
      }
      assert els[..i] == els;
    }

    /** `get_discoveries(set_value=..., check=...)`. */
    method GetDiscoveries(setValue: bool, check: Option<ProtoElement -> bool>) returns (found: seq<ProtoElement>)
      modifies this`cache, this`discoveries
      ensures found == Kept(JoinAll(records, emojis), check)
      ensures setValue ==> cache == found && discoveries == found
      ensures !setValue ==> cache == old(cache) && discoveries == old(discoveries)
    {
      found := Collect(check);
      if setValue {
        cache := found;
        discoveries := found;
      }
    }
  }
}
